/** `shlex_quote` and `shlex_join`, read back by a POSIX shell. */
module Quoting {
  import opened Basics

  // ---- the printer -----------------------------------------------------------------------------

  predicate Alphanumeric(c: char) { 'a' <= c <= 'z' || 'A' <= c <= 'Z' || '0' <= c <= '9' }

  predicate Safe(c: char) { Alphanumeric(c) || c in "@%+=:,./-_" }

  /** Every single quote closes the quotes, stands in double quotes, and opens them again. */
  function Escape(s: string): string {
    if s == [] then []
    else (if s[0] == '\'' then "'\"'\"'" else [s[0]]) + Escape(s[1..])
  }

  function Quote(s: string): string {
    if s == [] then "''"
    else if forall c :: c in s ==> Safe(c) then s
    else "'" + Escape(s) + "'"
  }

  function Join(argv: seq<string>): string {
    if argv == [] then []
    else if |argv| == 1 then Quote(argv[0])
    else Quote(argv[0]) + " " + Join(argv[1..])
  }

  predicate ValidServerName(name: string) {
    name != [] && Alphanumeric(name[0]) && forall c :: c in name ==> Alphanumeric(c) || c in "._-"
  }

  // ---- the reader ------------------------------------------------------------------------------

  datatype Quotes = Bare | Single | Double

  /** Characters that mean something else to a shell when they are not quoted: operators, newlines,
      expansions, patterns, comments and tildes. The reader refuses them wherever they stand. */
  predicate Active(c: char) { c in "\n|&;<>()$`*?[#~" }

  function Word(word: Option<string>): string { if word.Some? then word.value else [] }

  function Words(done: seq<string>, word: Option<string>): seq<string> {
    if word.Some? then done + [word.value] else done
  }

  /** Token splitting and quote removal, after sections 2.2.1 to 2.2.3 and 2.3 of the POSIX.1-2017
      Shell Command Language. */
  function Scan(s: string, quotes: Quotes, word: Option<string>, done: seq<string>): Option<seq<string>>
    decreases |s|
  {
    if s == [] then if quotes == Bare then Some(Words(done, word)) else None
    else
      var c, rest := s[0], s[1..];
      match quotes
      case Single =>
        if c == '\'' then Scan(rest, Bare, Some(Word(word)), done)
        else Scan(rest, Single, Some(Word(word) + [c]), done)
      case Double =>
        if c == '"' then Scan(rest, Bare, Some(Word(word)), done)
        else if c == '$' || c == '`' then None
        else if c == '\\' && rest != [] && rest[0] in "$`\"\\" then
          Scan(rest[1..], Double, Some(Word(word) + [rest[0]]), done)
        else if c == '\\' && rest != [] && rest[0] == '\n' then Scan(rest[1..], Double, word, done)
        else Scan(rest, Double, Some(Word(word) + [c]), done)
      case Bare =>
        if c == '\'' then Scan(rest, Single, Some(Word(word)), done)
        else if c == '"' then Scan(rest, Double, Some(Word(word)), done)
        else if c == ' ' || c == '\t' then Scan(rest, Bare, None, Words(done, word))
        else if c == '\\' then
          if rest == [] then None
          else if rest[0] == '\n' then Scan(rest[1..], Bare, word, done)
          else Scan(rest[1..], Bare, Some(Word(word) + [rest[0]]), done)
        else if Active(c) then None
        else Scan(rest, Bare, Some(Word(word) + [c]), done)
  }

  function Split(line: string): Option<seq<string>> { Scan(line, Bare, None, []) }

  // ---- the round trip --------------------------------------------------------------------------

  lemma SafeIsPlain(c: char)
    requires Safe(c)
    ensures c != '\'' && c != '"' && c != ' ' && c != '\t' && c != '\\' && !Active(c)
  {
  }

  lemma {:induction false} ScanSafe(s: string, rest: string, word: string, done: seq<string>)
    requires forall c :: c in s ==> Safe(c)
    ensures Scan(s + rest, Bare, Some(word), done) == Scan(rest, Bare, Some(word + s), done)
  {
    if s == [] {
      assert s + rest == rest && word + s == word;
    } else {
      SafeIsPlain(s[0]);
      assert (s + rest)[1..] == s[1..] + rest;
      assert word + s == word + [s[0]] + s[1..];
      ScanSafe(s[1..], rest, word + [s[0]], done);
    }
  }

  /** The five characters that stand for a single quote inside single quotes. */
  lemma ScanEscapedQuote(rest: string, word: string, done: seq<string>)
    ensures Scan("'\"'\"'" + rest, Single, Some(word), done) == Scan(rest, Single, Some(word + "'"), done)
  {
    var s := "'\"'\"'" + rest;
    assert s[1..][1..] == s[2..] && s[2..][1..] == s[3..] && s[3..][1..] == s[4..] && s[4..][1..] == s[5..] == rest;
    assert Scan(s, Single, Some(word), done) == Scan(s[1..], Bare, Some(word), done);
    assert Scan(s[1..], Bare, Some(word), done) == Scan(s[2..], Double, Some(word), done);
    assert Scan(s[2..], Double, Some(word), done) == Scan(s[3..], Double, Some(word + "'"), done);
    assert Scan(s[3..], Double, Some(word + "'"), done) == Scan(s[4..], Bare, Some(word + "'"), done);
  }

  lemma {:induction false} ScanEscape(s: string, rest: string, word: string, done: seq<string>)
    ensures Scan(Escape(s) + rest, Single, Some(word), done) == Scan(rest, Single, Some(word + s), done)
  {
    if s == [] {
      assert Escape(s) + rest == rest && word + s == word;
    } else {
      var tail := Escape(s[1..]) + rest;
      assert word + s == word + [s[0]] + s[1..];
      if s[0] == '\'' {
        assert Escape(s) + rest == "'\"'\"'" + tail;
        ScanEscapedQuote(tail, word, done);
      } else {
        assert Escape(s) + rest == [s[0]] + tail;
        assert ([s[0]] + tail)[1..] == tail;
      }
      ScanEscape(s[1..], rest, word + [s[0]], done);
    }
  }

  lemma ScanEmptyWord(rest: string, done: seq<string>)
    ensures Scan("''" + rest, Bare, None, done) == Scan(rest, Bare, Some([]), done)
  {
    var q := "''" + rest;
    assert q[1..][1..] == rest;
    assert Scan(q, Bare, None, done) == Scan(q[1..], Single, Some([]), done);
  }

  lemma ScanSafeWord(s: string, rest: string, done: seq<string>)
    requires s != [] && forall c :: c in s ==> Safe(c)
    ensures Scan(s + rest, Bare, None, done) == Scan(rest, Bare, Some(s), done)
  {
    assert s[0] in s;
    SafeIsPlain(s[0]);
    assert (s + rest)[1..] == s[1..] + rest;
    assert Word(None) + [s[0]] == [s[0]];
    ScanSafe(s[1..], rest, [s[0]], done);
    assert [s[0]] + s[1..] == s;
  }

  lemma ScanQuotedWord(s: string, rest: string, done: seq<string>)
    ensures Scan("'" + Escape(s) + "'" + rest, Bare, None, done) == Scan(rest, Bare, Some(s), done)
  {
    var tail := "'" + rest;
    var q := "'" + Escape(s) + "'" + rest;
    assert q[1..] == Escape(s) + tail && tail[1..] == rest;
    ScanEscape(s, tail, [], done);
    assert [] + s == s;
  }

  /** A quoted argument is read as one word, itself, whatever follows. */
  lemma ScanQuote(s: string, rest: string, done: seq<string>)
    ensures Scan(Quote(s) + rest, Bare, None, done) == Scan(rest, Bare, Some(s), done)
  {
    hide Scan, Safe, Escape;
    if s == [] {
      ScanEmptyWord(rest, done);
    } else if forall c :: c in s ==> Safe(c) {
      ScanSafeWord(s, rest, done);
    } else {
      ScanQuotedWord(s, rest, done);
    }
  }

  lemma ScanNothing(word: Option<string>, done: seq<string>)
    ensures Scan([], Bare, word, done) == Some(Words(done, word))
  {
  }

  lemma ScanBlank(rest: string, word: string, done: seq<string>)
    ensures Scan(" " + rest, Bare, Some(word), done) == Scan(rest, Bare, None, done + [word])
  {
    assert (" " + rest)[1..] == rest;
  }

  lemma {:induction false} ScanJoin(argv: seq<string>, done: seq<string>)
    ensures Scan(Join(argv), Bare, None, done) == Some(done + argv)
    decreases |argv|
  {
    hide Scan, Quote;
    if argv == [] {
      ScanNothing(None, done);
      assert done + argv == done;
    } else if |argv| == 1 {
      assert Quote(argv[0]) + [] == Quote(argv[0]);
      ScanQuote(argv[0], [], done);
      ScanNothing(Some(argv[0]), done);
      assert argv == [argv[0]];
    } else {
      assert Join(argv) == Quote(argv[0]) + (" " + Join(argv[1..]));
      ScanQuote(argv[0], " " + Join(argv[1..]), done);
      ScanBlank(Join(argv[1..]), argv[0], done);
      ScanJoin(argv[1..], done + [argv[0]]);
      assert done + [argv[0]] + argv[1..] == done + argv;
    }
  }

  /** A shell splits a joined command line into exactly the arguments joined. */
  lemma SplitJoin(argv: seq<string>)
    ensures Split(Join(argv)) == Some(argv)
  {
    ScanJoin(argv, []);
    assert [] + argv == argv;
  }

  /** So different argument vectors print differently. */
  lemma JoinInjective(a: seq<string>, b: seq<string>)
    requires Join(a) == Join(b)
    ensures a == b
  {
    SplitJoin(a);
    SplitJoin(b);
  }

  lemma {:induction false} EscapeIsLonger(s: string)
    ensures |Escape(s)| >= |s|
  {
    if s != [] {
      EscapeIsLonger(s[1..]);
    }
  }

  /** An argument is printed as it stands exactly when it is one or more of these characters. */
  lemma StandsExactly(s: string)
    ensures Quote(s) == s <==>
      && s != []
      && forall c :: c in s ==> 'a' <= c <= 'z' || 'A' <= c <= 'Z' || '0' <= c <= '9' || c in "@%+=:,./-_"
  {
    EscapeIsLonger(s);
    assert (forall c :: c in s ==> Safe(c)) <==>
      forall c :: c in s ==> 'a' <= c <= 'z' || 'A' <= c <= 'Z' || '0' <= c <= '9' || c in "@%+=:,./-_";
  }

  /** The valid server names are the arguments printed as they stand that begin with a letter or a digit
      and have none of the other punctuation. */
  lemma ServerNamesExactly(name: string)
    ensures ValidServerName(name) <==>
      Quote(name) == name && name[0] !in "@%+=:,./-_" && forall c :: c in name ==> c !in "@%+=:,/"
  {
    StandsExactly(name);
    if Quote(name) == name {
      assert forall c :: c in name ==> Safe(c);
      assert name[0] in name;
    }
    if ValidServerName(name) {
      assert forall c :: c in name ==> Safe(c);
    }
  }

  /** A valid server name is printed as it stands, reads back as one word, and is not an option. */
  lemma ServerNamesStand(name: string)
    requires ValidServerName(name)
    ensures Quote(name) == name && name[0] != '-' && Split(name) == Some([name])
  {
    forall c | c in name ensures Safe(c) {
    }
    SplitJoin([name]);
  }
}
