/** Rewriting the managed block, and the lens laws it satisfies with the parser. The grammar of rule
    bodies is a parameter: `canon` gives the canonical bytes of a body, or why it has none. */
module DocumentRewrite {
  import opened Basics
  import opened ManagedBlock
  import opened ManagedDocument
  import opened DocumentCodec

  type Canon = string -> Result<string, string>

  // ---- rendering and rewriting -----------------------------------------------------------------

  /** What a rendered block is: the block, if its body is canonical and the whole is valid. */
  ghost function Rendered(x: Delimiters, canon: Canon, m: Marker, body: string): Result<string, DocumentError> {
    if !Utf8(body) then Err(InvalidEncoding)
    else if canon(body).Err? then Err(InvalidBody(canon(body).error))
    else if canon(body).value != body then Err(NonCanonicalBody)
    else if Validate(Block(x, m, body)) != None then Err(Validate(Block(x, m, body)).value)
    else Ok(Block(x, m, body))
  }

  /** `render_managed_block`: the block is appended to a buffer piece by piece. */
  method RenderBlock(x: Delimiters, canon: Canon, m: Marker, body: string) returns (r: Result<string, DocumentError>)
    ensures r == Rendered(x, canon, m, body)
  {
    hide Utf8, Validate;
    if !Utf8(body) {
      return Err(InvalidEncoding);
    }
    var canonical := canon(body);
    if canonical.Err? {
      return Err(InvalidBody(canonical.error));
    }
    if canonical.value != body {
      return Err(NonCanonicalBody);
    }
    var rendered := x.start;
    rendered := rendered + [NL];
    rendered := rendered + x.prefix;
    rendered := rendered + MarkerText(m);
    rendered := rendered + x.suffix;
    rendered := rendered + ([NL] + [NL] + x.open + [NL]);
    rendered := rendered + body;
    rendered := rendered + (x.close + [NL]);
    rendered := rendered + x.end;
    AppendedIsBlock(x, m, body);
    var invalid := Validate(rendered);
    r := if invalid.Some? then Err(invalid.value) else Ok(rendered);
  }

  lemma AppendedIsBlock(x: Delimiters, m: Marker, body: string)
    ensures x.start + [NL] + x.prefix + MarkerText(m) + x.suffix + ([NL] + [NL] + x.open + [NL]) + body
        + (x.close + [NL]) + x.end
      == Block(x, m, body)
  {
  }

  /** A document with `block` in place of its own block. */
  function Spliced(d: Managed, block: string): string
    requires d.start <= d.end <= |d.source|
  {
    d.source[..d.start] + block + d.source[d.end..]
  }

  ghost function Rewritten(x: Delimiters, canon: Canon, d: Managed, m: Marker, body: string)
    : Result<string, DocumentError>
    requires d.start <= d.end <= |d.source|
  {
    var block := Rendered(x, canon, m, body);
    if block.Err? then Err(block.error)
    else if |Spliced(d, block.value)| > MAX_DOCUMENT_BYTES then Err(TooLarge)
    else
      var parsed := Parse(x, Spliced(d, block.value));
      if parsed.Err? then Err(parsed.error) else Ok(Spliced(d, block.value))
  }

  /** `ManagedDocument::rewrite`. */
  method Rewrite(x: Delimiters, canon: Canon, d: Managed, m: Marker, body: string)
    returns (r: Result<string, DocumentError>)
    requires WellFormed(x) && Parse(x, d.source) == Ok(d)
    ensures r == Rewritten(x, canon, d, m, body)
  {
    hide Utf8, Validate, WellFormed, Doc, Parse, Rendered;
    ParseExactly(x, d.source, d);
    var block := RenderBlock(x, canon, m, body);
    if block.Err? {
      r := Err(block.error);
    } else {
      var finalLen := |d.source| - (d.end - d.start) + |block.value|;
      if finalLen > MAX_DOCUMENT_BYTES {
        r := Err(TooLarge);
      } else {
        var rewritten := d.source[..d.start];
        rewritten := rewritten + block.value;
        rewritten := rewritten + d.source[d.end..];
        var parsed := ParseDocument(x, rewritten);
        r := if parsed.Err? then Err(parsed.error) else Ok(rewritten);
      }
    }
  }

  // ---- the laws --------------------------------------------------------------------------------

  lemma BlockTail(x: Delimiters, m: Marker, body: string) returns (w: string)
    ensures Block(x, m, body) == w + x.end && w != [] && w[|w| - 1] == NL
  {
    var b := Block(x, m, body);
    w := b[..|b| - |x.end|];
  }

  /** The end marker of a rendered block stands on its own line whatever the body is. */
  lemma EndStands(x: Delimiters, s: string, pre: string, m: Marker, body: string, post: string)
    requires WellFormed(x) && s == pre + Block(x, m, body) + post && StartsLine(post)
    ensures LineAt(s, PlacesOf(x, pre, m, body).end, x.end)
  {
    hide LineAt, Block, StartsLine, PinnedLine;
    BlockLength(x, m, body);
    var w := BlockTail(x, m, body);
    assert s == (pre + w) + x.end + post;
    LineIn(s, pre + w, x.end, post);
  }

  /** A body that parses back ends with a whole line, whether or not its caller saw to that. */
  lemma ParsedBodyEnds(x: Delimiters, s: string, pre: string, m: Marker, body: string, post: string, d: Managed)
    requires WellFormed(x) && s == pre + Block(x, m, body) + post && StartsLine(post) && ParsesTo(x, s, d)
    ensures EndsLine(body)
  {
    var at := PlacesOf(x, pre, m, body);
    var pre', post' := s[..d.start], s[d.end..];
    var at' := PlacesOf(x, pre', d.marker, d.body);
    EndStands(x, s, pre, m, body, post);
    ShapeLines(x, s, pre', d.marker, d.body, post');
    hide Block, Lookalike, IsMarker, PinnedLine, StartsLine, LineAt;
    assert LineFits(x, at', at.end, x.end);
    assert at.close == at'.close;
    StartsOnLine(s, at.close, x.close);
    BodySlice(x, s, pre, m, body, post);
  }

  lemma StartsOnLine(s: string, p: nat, v: string)
    requires LineAt(s, p, v)
    ensures p == 0 || (p <= |s| && s[p - 1] == NL)
  {
  }

  lemma BodySlice(x: Delimiters, s: string, pre: string, m: Marker, body: string, post: string)
    requires s == pre + Block(x, m, body) + post
    ensures var at := PlacesOf(x, pre, m, body); at.close <= |s| && body == s[at.body..at.close]
  {
    BlockText(x, pre, m, body, post);
    var head := pre + x.start + [NL] + PinnedLine(x, m) + [NL] + [NL] + x.open + [NL];
    hide PinnedLine, Block;
    FenceBody(x, body, head, post);
    assert s == head + (FenceOnward(x, body) + post);
    hide FenceOnward;
    BodyPart(s, head, body, FenceOnward(x, body)[|body|..] + post);
  }

  lemma SplicedShape(x: Delimiters, canon: Canon, d: Managed, m: Marker, body: string, s: string)
    requires WellFormed(x) && Parse(x, d.source) == Ok(d) && IsMarker(m)
    requires Rewritten(x, canon, d, m, body) == Ok(s)
    ensures Parse(x, s).Ok? && s == d.source[..d.start] + Block(x, m, body) + d.source[d.end..]
    ensures Shape(x, s, d.source[..d.start], m, body, d.source[d.end..])
  {
    hide WellFormed, Validate, Utf8, Block, IsMarker, EndsLine, StartsLine, SoleBlock;
    ParsedBodyEnds(x, s, d.source[..d.start], m, body, d.source[d.end..], Parse(x, s).value);
  }

  /** PutGet: what `rewrite` returns parses to exactly the marker and body put in, at the same place,
      and every byte before and after the block is the source's. */
  lemma PutGet(x: Delimiters, canon: Canon, d: Managed, m: Marker, body: string, s: string)
    requires WellFormed(x) && Parse(x, d.source) == Ok(d) && IsMarker(m)
    requires Rewritten(x, canon, d, m, body) == Ok(s)
    ensures Parse(x, s) == Ok(Managed(s, m, body, d.start, d.start + |Block(x, m, body)|))
    ensures s[..d.start] == d.source[..d.start] && s[d.start + |Block(x, m, body)|..] == d.source[d.end..]
  {
    hide WellFormed, Doc, Shape, Block, Validate, Rewritten;
    var pre, post, block := d.source[..d.start], d.source[d.end..], Block(x, m, body);
    SplicedShape(x, canon, d, m, body, s);
    var d' := Parse(x, s).value;
    DocUnique(x, s, s[..d'.start], d'.marker, d'.body, s[d'.end..], pre, m, body, post);
    OuterParts(s, pre, block, post);
    assert |s[d'.end..]| == |post|;
  }

  /** GetPut: putting a document's own marker and its own canonical body back changes nothing. */
  lemma GetPut(x: Delimiters, canon: Canon, d: Managed)
    requires WellFormed(x) && Parse(x, d.source) == Ok(d) && canon(d.body) == Ok(d.body)
    ensures Rewritten(x, canon, d, d.marker, d.body) == Ok(d.source)
  {
    var pre, post, block := d.source[..d.start], d.source[d.end..], Block(x, d.marker, d.body);
    BodyIsUtf8(x, d.source, d);
    OwnBlockIsValid(x, d);
    hide Utf8, WellFormed, Block, IsMarker, EndsLine, StartsLine, SoleBlock;
    assert |Spliced(d, block)| <= MAX_DOCUMENT_BYTES;
  }

  lemma OwnBlockIsValid(x: Delimiters, d: Managed)
    requires WellFormed(x) && Parse(x, d.source) == Ok(d)
    ensures Validate(Block(x, d.marker, d.body)) == None
  {
    hide Utf8, Validate, IsMarker, SoleBlock;
    var pre, post, block := d.source[..d.start], d.source[d.end..], Block(x, d.marker, d.body);
    assert block[0] == x.start[0];
    ValidatePart(pre, block, post);
  }

  /** PutPut: after any successful rewrite, a second one gives the result, error or bytes, that it
      would have given on the original document. */
  lemma PutPut(x: Delimiters, canon: Canon, d: Managed, m: Marker, body: string, s: string, m': Marker, body': string)
    requires WellFormed(x) && Parse(x, d.source) == Ok(d) && IsMarker(m)
    requires Rewritten(x, canon, d, m, body) == Ok(s)
    ensures Parse(x, s).Ok?
    ensures Rewritten(x, canon, Parse(x, s).value, m', body') == Rewritten(x, canon, d, m', body')
  {
    hide Block, Doc, Validate, Utf8, WellFormed, Parse, Rendered;
    PutGet(x, canon, d, m, body, s);
    ParseExactly(x, s, Parse(x, s).value);
    ParseExactly(x, d.source, d);
    var d' := Parse(x, s).value;
    var block := Rendered(x, canon, m', body');
    if block.Ok? {
      assert Spliced(d', block.value) == Spliced(d, block.value);
    }
  }
}
