/** How rules are printed, and why the diff of two canonical corpora survives the trimming of its end. */
module CanonicalRules {
  import opened Basics
  import opened Hunks
  import opened DiffText

  datatype Scalar = Int(i: int) | Text(s: string) | Bool(b: bool)

  datatype Pred =
    | Eq(field: string, value: Scalar)
    | Lte(field: string, bound: int)
    | Gte(field: string, bound: int)
    | In(field: string, values: seq<Scalar>)

  datatype Selector =
    | SetOf(provider: string, name: string, digest: Option<string>)
    | Verb(provider: string, action: string)

  datatype AggregateKind = Budget(field: Option<string>) | Rate

  datatype Aggregate = Aggregate(kind: AggregateKind, limit: int, hourly: bool)

  datatype Rule = Rule(allow: bool, selector: Selector, conjuncts: seq<Pred>, aggregate: Option<Aggregate>)

  // ---- the printer -----------------------------------------------------------------------------

  function PrintInt(i: int): string { if i < 0 then "-" + Decimal(-i) else Decimal(i) }

  function Escaped(s: string): string {
    if s == [] then []
    else (if s[0] == '"' then "\\\"" else if s[0] == '\\' then "\\\\" else [s[0]]) + Escaped(s[1..])
  }

  function PrintScalar(v: Scalar): string {
    match v
    case Int(i) => PrintInt(i)
    case Text(s) => "\"" + Escaped(s) + "\""
    case Bool(b) => if b then "true" else "false"
  }

  function PrintValues(values: seq<Scalar>): string {
    if values == [] then []
    else PrintScalar(values[0]) + (if |values| == 1 then [] else ", ") + PrintValues(values[1..])
  }

  function PrintPred(p: Pred): string {
    match p
    case Eq(field, value) => field + " = " + PrintScalar(value)
    case Lte(field, bound) => field + " <= " + PrintInt(bound)
    case Gte(field, bound) => field + " >= " + PrintInt(bound)
    case In(field, values) => field + " in {" + PrintValues(values) + "}"
  }

  function PrintConjuncts(ps: seq<Pred>): string {
    if ps == [] then []
    else if |ps| == 1 then PrintPred(ps[0])
    else PrintPred(ps[0]) + " and " + PrintConjuncts(ps[1..])
  }

  function PrintAggregate(a: Aggregate): string {
    var window := if a.hourly then "hour" else "day";
    match a.kind
    case Budget(Some(field)) => "budget " + field + " " + PrintInt(a.limit) + " per " + window
    case Budget(None) => "budget " + PrintInt(a.limit) + " per " + window
    case Rate => "rate " + PrintInt(a.limit) + " per " + window
  }

  function PrintSelector(s: Selector): string {
    match s
    case SetOf(provider, name, Some(digest)) => provider + "." + name + "@" + digest
    case SetOf(provider, name, None) => provider + "." + name
    case Verb(provider, action) => provider + "." + action
  }

  /** `print_rule`. */
  function PrintRule(r: Rule): string {
    var head := (if r.allow then "allow " else "deny ") + PrintSelector(r.selector);
    if r.conjuncts == [] && r.aggregate.None? then head
    else if r.aggregate.None? then head + " where " + PrintConjuncts(r.conjuncts)
    else if r.conjuncts == [] then head + " where " + PrintAggregate(r.aggregate.value)
    else head + " where " + PrintConjuncts(r.conjuncts) + " and " + PrintAggregate(r.aggregate.value)
  }

  function PrintAll(rules: seq<Rule>): (r: seq<string>)
    ensures |r| == |rules|
  {
    seq(|rules|, k requires 0 <= k < |rules| => PrintRule(rules[k]))
  }

  function JoinLines(lines: seq<string>): string {
    if lines == [] then []
    else if |lines| == 1 then lines[0]
    else lines[0] + [NL] + JoinLines(lines[1..])
  }

  /** `canonical_rule_bytes`: the printed rules, joined, with a final newline unless there is nothing. */
  function CanonicalText(rules: seq<Rule>): string {
    var text := JoinLines(PrintAll(rules));
    if text == [] then [] else text + [NL]
  }

  // ---- printed rules end visibly ---------------------------------------------------------------

  predicate NameChar(c: char) { 'a' <= c <= 'z' || '0' <= c <= '9' || c in "_-:" }

  /** Identifiers and set digests. */
  predicate Name(s: string) { s != [] && forall c :: c in s ==> NameChar(c) }

  predicate PlainScalar(v: Scalar) { v.Text? ==> NL !in v.s }

  /** A rule as the line-based grammar can spell it: names are names, and no string holds a newline. */
  predicate Spellable(r: Rule) {
    && (match r.selector
        case SetOf(provider, name, digest) => Name(provider) && Name(name) && (digest.Some? ==> Name(digest.value))
        case Verb(provider, action) => Name(provider) && Name(action))
    && (forall p :: p in r.conjuncts ==> PlainPred(p))
    && (r.aggregate.Some? && r.aggregate.value.kind.Budget? && r.aggregate.value.kind.field.Some? ==>
          Name(r.aggregate.value.kind.field.value))
  }

  predicate PlainPred(p: Pred) {
    && Name(p.field)
    && (p.Eq? ==> PlainScalar(p.value))
    && (p.In? ==> forall v :: v in p.values ==> PlainScalar(v))
  }

  /** One line that ends in something to see. */
  predicate Solid(s: string) { NL !in s && EndsVisibly(s) }

  lemma SolidEnd(a: string, b: string)
    requires NL !in a && Solid(b)
    ensures Solid(a + b)
  {
    assert (a + b)[|a + b| - 1] == b[|b| - 1];
  }

  lemma NameIsSolid(s: string)
    requires Name(s)
    ensures Solid(s)
  {
    assert s[|s| - 1] in s && NameChar(s[|s| - 1]);
    assert !NameChar(NL);
  }

  lemma IntIsSolid(i: int)
    ensures Solid(PrintInt(i))
  {
    var digits := Decimal(if i < 0 then -i else i);
    assert digits[|digits| - 1] in digits;
    assert !IsDigit(NL);
    SolidEnd("-", digits);
  }

  lemma {:induction false} EscapedIsOneLine(s: string)
    requires NL !in s
    ensures NL !in Escaped(s)
  {
    if s != [] {
      EscapedIsOneLine(s[1..]);
    }
  }

  lemma ScalarIsSolid(v: Scalar)
    requires PlainScalar(v)
    ensures Solid(PrintScalar(v))
  {
    match v
    case Int(i) => IntIsSolid(i);
    case Text(s) =>
      EscapedIsOneLine(s);
      SolidEnd("\"" + Escaped(s), "\"");
    case Bool(b) =>
      assert "true"[3] == 'e' && "false"[4] == 'e';
  }

  lemma {:induction false} ValuesAreOneLine(values: seq<Scalar>)
    requires forall v :: v in values ==> PlainScalar(v)
    ensures NL !in PrintValues(values)
  {
    if values != [] {
      ScalarIsSolid(values[0]);
      ValuesAreOneLine(values[1..]);
    }
  }

  lemma PredIsSolid(p: Pred)
    requires PlainPred(p)
    ensures Solid(PrintPred(p))
  {
    NameIsSolid(p.field);
    hide Name, Solid, PrintScalar, PrintInt;
    match p
    case Eq(field, value) =>
      ScalarIsSolid(value);
      FieldThen(field, " = ", PrintScalar(value));
    case Lte(field, bound) =>
      IntIsSolid(bound);
      FieldThen(field, " <= ", PrintInt(bound));
    case Gte(field, bound) =>
      IntIsSolid(bound);
      FieldThen(field, " >= ", PrintInt(bound));
    case In(field, values) =>
      ValuesAreOneLine(values);
      BraceIsSolid(field, PrintValues(values));
  }

  lemma FieldThen(field: string, between: string, rest: string)
    requires Solid(field) && NL !in between && Solid(rest)
    ensures Solid(field + between + rest)
  {
    SolidEnd(field + between, rest);
  }

  lemma BraceIsSolid(field: string, values: string)
    requires Solid(field) && NL !in values
    ensures Solid(field + " in {" + values + "}")
  {
    SolidEnd(field + " in {" + values, "}");
  }

  lemma {:induction false} ConjunctsAreSolid(ps: seq<Pred>)
    requires ps != [] && forall p :: p in ps ==> PlainPred(p)
    ensures Solid(PrintConjuncts(ps))
  {
    hide Solid, PlainPred, PrintPred;
    PredIsSolid(ps[0]);
    if |ps| > 1 {
      ConjunctsAreSolid(ps[1..]);
      FieldThen(PrintPred(ps[0]), " and ", PrintConjuncts(ps[1..]));
    }
  }

  lemma AggregateIsSolid(a: Aggregate)
    requires a.kind.Budget? && a.kind.field.Some? ==> Name(a.kind.field.value)
    ensures Solid(PrintAggregate(a))
  {
    IntIsSolid(a.limit);
    var window := if a.hourly then "hour" else "day";
    assert "hour"[3] == 'r' && "day"[2] == 'y';
    assert Solid(window);
    hide Solid, PrintInt;
    FieldThen(PrintInt(a.limit), " per ", window);
    match a.kind
    case Budget(Some(field)) =>
      NameIsSolid(field);
      hide Name;
      AggregateText("budget ", field + " ", PrintInt(a.limit), window) by { SolidIsOneLine(field); }
    case Budget(None) => AggregateText("budget ", "", PrintInt(a.limit), window);
    case Rate => AggregateText("rate ", "", PrintInt(a.limit), window);
  }

  lemma SolidIsOneLine(s: string)
    requires Solid(s)
    ensures NL !in s + " "
  {
  }

  lemma AggregateText(word: string, field: string, limit: string, window: string)
    requires NL !in word && NL !in field && Solid(limit) && Solid(window)
    ensures Solid(word + field + limit + " per " + window)
  {
    SolidEnd(word + field + limit + " per ", window);
  }

  lemma SelectorIsSolid(s: Selector)
    requires match s
      case SetOf(provider, name, digest) => Name(provider) && Name(name) && (digest.Some? ==> Name(digest.value))
      case Verb(provider, action) => Name(provider) && Name(action)
    ensures Solid(PrintSelector(s))
  {
    NameIsSolid(s.provider);
    match s
    case SetOf(provider, name, digest) =>
      NameIsSolid(name);
      FieldThen(provider, ".", name);
      if digest.Some? {
        NameIsSolid(digest.value);
        FieldThen(provider + "." + name, "@", digest.value);
      }
    case Verb(provider, action) =>
      NameIsSolid(action);
      FieldThen(provider, ".", action);
  }

  /** Every rule the grammar can spell is printed on one line that ends visibly. */
  lemma RuleIsSolid(r: Rule)
    requires Spellable(r)
    ensures Solid(PrintRule(r))
  {
    SelectorIsSolid(r.selector);
    var word := if r.allow then "allow " else "deny ";
    SolidEnd(word, PrintSelector(r.selector));
    hide Solid, PrintSelector, PrintConjuncts, PrintAggregate, PlainPred, Name;
    var head := word + PrintSelector(r.selector);
    if r.conjuncts != [] {
      ConjunctsAreSolid(r.conjuncts);
      FieldThen(head, " where ", PrintConjuncts(r.conjuncts));
    }
    if r.aggregate.Some? {
      AggregateIsSolid(r.aggregate.value);
      FieldThen(head, " where ", PrintAggregate(r.aggregate.value));
      if r.conjuncts != [] {
        FieldThen(head + " where " + PrintConjuncts(r.conjuncts), " and ", PrintAggregate(r.aggregate.value));
      }
    }
  }

  // ---- canonical corpora -----------------------------------------------------------------------

  lemma {:induction false} JoinIsUnlines(lines: seq<string>)
    requires lines != []
    ensures JoinLines(lines) + [NL] == Unlines(lines)
  {
    if |lines| > 1 {
      JoinIsUnlines(lines[1..]);
      assert JoinLines(lines) + [NL] == lines[0] + [NL] + (JoinLines(lines[1..]) + [NL]);
    } else {
      assert lines[1..] == [];
    }
  }

  lemma {:induction false} LinesOfUnlines(lines: seq<string>)
    requires forall l :: l in lines ==> Solid(l)
    ensures TextLines(Unlines(lines)) == lines
  {
    if lines != [] {
      assert lines[0] in lines;
      var rest := Unlines(lines[1..]);
      var text := lines[0] + [NL] + rest;
      LineLengthOf(lines[0], rest);
      assert text[..|lines[0]|] == lines[0] && text[|lines[0]| + 1..] == rest;
      assert IsWhitespace('\r');
      LinesOfUnlines(lines[1..]);
      assert [lines[0]] + lines[1..] == lines;
    }
  }

  lemma JoinIsNotEmpty(lines: seq<string>)
    requires lines != [] && forall l :: l in lines ==> Solid(l)
    ensures JoinLines(lines) != []
  {
    assert lines[0] in lines;
  }

  /** The lines of a canonical text are its printed rules. */
  lemma CanonicalLines(rules: seq<Rule>)
    requires forall r :: r in rules ==> Spellable(r)
    ensures TextLines(CanonicalText(rules)) == PrintAll(rules)
    ensures forall l :: l in PrintAll(rules) ==> Solid(l)
  {
    var lines := PrintAll(rules);
    forall l | l in lines ensures Solid(l) {
      var k :| 0 <= k < |lines| && lines[k] == l;
      assert rules[k] in rules;
      RuleIsSolid(rules[k]);
    }
    hide Spellable, PrintRule, PrintAll, Solid;
    if lines != [] {
      JoinIsUnlines(lines);
      JoinIsNotEmpty(lines);
      LinesOfUnlines(lines);
    }
  }

  /** The diff of two canonical corpora always reads back from its trimmed text. */
  lemma CanonicalDiffReads(hs: seq<Hunk>, live: seq<Rule>, document: seq<Rule>)
    requires forall r :: r in live || r in document ==> Spellable(r)
    requires DiffOf(hs, TextLines(CanonicalText(live)), TextLines(CanonicalText(document)))
    ensures ReadDiff(TrimEnd(Unlines(DiffLines(hs))) + [NL]) == Some(hs)
  {
    hide Spellable, DiffOf, ReadDiff, TrimEnd, Unlines, DiffLines, TextLines, CanonicalText, PrintAll, EndsVisibly;
    CanonicalLines(live);
    CanonicalLines(document);
    VisibleLinesReadBack(hs, CanonicalText(live), CanonicalText(document));
  }
}
