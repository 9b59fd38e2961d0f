/** multipart/form-data bodies (section 4 of RFC 7578): the parser of a request body, as pointer arithmetic
    over one buffer, and the round trip with the way such bodies are written. */
module Multipart {
  import opened Folding
  import opened Options
  import opened HeaderParams
  import T = HttpTables

  const CRLF := "\r\n"
  const CONTENT_DISPOSITION := "content-disposition"
  const CONTENT_TYPE := "content-type"
  const FORM_DATA := "form-data"

  /** Equality up to letter case with a lower-case word. */
  predicate SameWord(a: string, lower: string) {
    |a| == |lower| && forall i :: 0 <= i < |a| ==> T.Lower(a[i]) == lower[i]
  }

  // ------------------------------------------------------------------ the meaning of a body

  datatype Name = BadName | NameTo(end: nat)

  /** A header name runs to a colon, or to the end of the buffer. */
  function SkipName(s: string, sp: nat, rp: nat): (n: Name)
    requires sp <= rp <= |s|
    ensures n.NameTo? ==> rp <= n.end <= |s|
    decreases |s| - rp
  {
    if rp == |s| then NameTo(rp)
    else if s[rp] == ':' then (if rp > sp then NameTo(rp) else BadName)
    else if !IsToken(s[rp]) then BadName
    else SkipName(s, sp, rp + 1)
  }

  datatype Fields = Fields(disposition: string, name: Option<string>, filename: string, ctype: string)

  const NO_FIELDS := Fields("", None, "", "")

  /** What the i-th parameter of a Content-Disposition header says. */
  function WithParam(f: Fields, i: nat, p: Param): Fields
    requires p.Param?
  {
    if i == 0 then f.(disposition := p.key)
    else if SameWord(p.key, "name") then f.(name := Some(p.val))
    else if SameWord(p.key, "filename") then f.(filename := p.val)
    else f
  }

  datatype Head = BadHead | Head(fields: Fields, end: nat)

  function Disposition(s: string, rp: nat, i: nat, f: Fields): (h: Head)
    requires rp <= |s|
    ensures h.Head? && rp <= h.end <= |s|
    decreases |s| - rp
  {
    var p := NextParam(s, rp);
    if p.NoParam? then Head(f, rp) else Disposition(s, p.next, i + 1, WithParam(f, i, p))
  }

  /** The end of the last parameter of a Content-Type header. */
  function TypeEnd(s: string, rp: nat): (e: nat)
    requires rp <= |s|
    ensures rp <= e <= |s|
    decreases |s| - rp
  {
    var p := NextParam(s, rp);
    if p.NoParam? then rp else TypeEnd(s, p.next)
  }

  /** The content type runs from the first key to the end of the last parameter. */
  function ContentType(s: string, rp: nat, f: Fields): (h: Head)
    requires rp <= |s|
    ensures h.Head? && rp <= h.end <= |s|
  {
    var p, e := NextParam(s, rp), TypeEnd(s, rp);
    Head(if p.Param? then f.(ctype := s[p.start..e]) else f, e)
  }

  /** The header block, up to the empty line. Any header but the two known ones is refused, since nothing
      moves behind its name. */
  function Headers(s: string, rp: nat, f: Fields): (h: Head)
    requires rp <= |s|
    ensures h.Head? ==> rp < h.end <= |s|
    decreases |s| - rp
  {
    if !At(s, rp, CRLF) then BadHead
    else
      var n := SkipName(s, rp + 2, rp + 2);
      if n.BadName? then Head(f, rp + 2)
      else
        var h :=
          if SameWord(s[rp + 2..n.end], CONTENT_DISPOSITION) then Disposition(s, n.end, 0, f)
          else if SameWord(s[rp + 2..n.end], CONTENT_TYPE) then ContentType(s, n.end, f)
          else Head(f, n.end);
        Headers(s, h.end, h.fields)
  }

  /** A delimiter line, or the closing delimiter, starts here. */
  predicate Delimits(s: string, boundary: string, p: nat) {
    At(s, p, CRLF + "--" + boundary) && (At(s, p + 4 + |boundary|, CRLF) || At(s, p + 4 + |boundary|, "--"))
  }

  /** The first delimiter behind a position. */
  function DataEnd(s: string, boundary: string, rp: nat): (e: Option<nat>)
    requires rp <= |s|
    ensures e.Some? ==> rp <= e.value <= |s| && Delimits(s, boundary, e.value)
    decreases |s| - rp
  {
    if |s| - rp < |boundary| + 6 then None
    else if Delimits(s, boundary, rp) then Some(rp)
    else DataEnd(s, boundary, rp + 1)
  }

  /** A stored part; an absent or empty file name or content type is not stored. */
  datatype Item = Item(name: string, filename: Option<string>, ctype: Option<string>, data: string)

  function Stored(text: string): Option<string> {
    if text == "" then None else Some(text)
  }

  predicate IsFormData(d: string) {
    0 < |d| <= |FORM_DATA| && SameWord(d, FORM_DATA[..|d|])
  }

  datatype Next = End | Malformed | Found(item: Item, next: nat)

  /** The part behind a header block. */
  function PartBehind(s: string, boundary: string, h: Head): (n: Next)
    requires h.Head? ==> h.end <= |s|
    ensures n.Found? ==> h.Head? && h.end < n.next <= |s|
  {
    if h.BadHead? || !IsFormData(h.fields.disposition) || h.fields.name.None? || !At(s, h.end, CRLF) then Malformed
    else
      var e := DataEnd(s, boundary, h.end + 2);
      if e.None? then Malformed
      else Found(Item(h.fields.name.value, Stored(h.fields.filename), Stored(h.fields.ctype), s[h.end + 2..e.value]),
        e.value + 2)
  }

  /** A delimiter stands here, with at least two more characters. */
  predicate Opens(s: string, boundary: string, rp: nat) {
    rp + 4 + |boundary| <= |s| && At(s, rp, "--") && At(s, rp + 2, boundary)
  }

  function NextPart(s: string, boundary: string, rp: nat): (n: Next)
    ensures n.Found? ==> rp < n.next <= |s|
  {
    if rp >= |s| then End
    else if !Opens(s, boundary, rp) then Malformed
    else if At(s, rp + 2 + |boundary|, "--") then End
    else PartBehind(s, boundary, Headers(s, rp + 2 + |boundary|, NO_FIELDS))
  }

  /** The parts of a body from a position on, and whether it ended properly. */
  datatype Form = Form(items: seq<Item>, eof: bool)

  function Parts(s: string, boundary: string, rp: nat): Form
    decreases |s| - rp
  {
    var n := NextPart(s, boundary, rp);
    if n.Found? then
      var rest := Parts(s, boundary, n.next);
      Form([n.item] + rest.items, rest.eof)
    else Form([], n.End?)
  }

  // ------------------------------------------------------------------ the parser

  method SkipHeaderName(s: string, from: nat) returns (n: Name)
    requires from <= |s|
    ensures n == SkipName(s, from, from)
  {
    var rp := from;
    while rp < |s|
      invariant from <= rp <= |s| && SkipName(s, from, from) == SkipName(s, from, rp)
    {
      if s[rp] == ':' {
        return if rp > from then NameTo(rp) else BadName;
      } else if !IsToken(s[rp]) {
        return BadName;
      }
      rp := rp + 1;
    }
    return NameTo(rp);
  }

  method ParseDisposition(s: string, from: nat, f: Fields) returns (h: Head)
    requires from <= |s|
    ensures h == Disposition(s, from, 0, f)
  {
    var rp, i, fields := from, 0, f;
    var p := ParseNextParameter(s, rp);
    while p.Param?
      invariant from <= rp <= |s| && p == NextParam(s, rp)
      invariant Disposition(s, from, 0, f) == Disposition(s, rp, i, fields)
      decreases |s| - rp
    {
      if i == 0 {
        fields := fields.(disposition := p.key);
      } else if SameWord(p.key, "name") {
        fields := fields.(name := Some(p.val));
      } else if SameWord(p.key, "filename") {
        fields := fields.(filename := p.val);
      }
      rp, i := p.next, i + 1;
      p := ParseNextParameter(s, rp);
    }
    return Head(fields, rp);
  }

  method ParseContentType(s: string, from: nat, f: Fields) returns (h: Head)
    requires from <= |s|
    ensures h == ContentType(s, from, f)
  {
    var rp, i, start := from, 0, 0;
    var p := ParseNextParameter(s, rp);
    while p.Param?
      invariant from <= rp <= |s| && p == NextParam(s, rp) && TypeEnd(s, from) == TypeEnd(s, rp)
      invariant i == 0 <==> rp == from
      invariant i > 0 ==> NextParam(s, from).Param? && start == NextParam(s, from).start <= rp
      decreases |s| - rp
    {
      if i == 0 {
        start := p.start;
      }
      rp, i := p.next, i + 1;
      p := ParseNextParameter(s, rp);
    }
    return Head(if i > 0 then f.(ctype := s[start..rp]) else f, rp);
  }

  method FindDelimiter(s: string, boundary: string, from: nat) returns (e: Option<nat>)
    requires from <= |s|
    ensures e == DataEnd(s, boundary, from)
  {
    var rp := from;
    while |s| - rp >= |boundary| + 6
      invariant from <= rp <= |s| && DataEnd(s, boundary, from) == DataEnd(s, boundary, rp)
    {
      if Delimits(s, boundary, rp) {
        return Some(rp);
      }
      rp := rp + 1;
    }
    return None;
  }

  method ParseHeaders(s: string, from: nat) returns (h: Head)
    requires from <= |s|
    ensures h == Headers(s, from, NO_FIELDS)
  {
    var rp, fields := from, NO_FIELDS;
    while true
      invariant from <= rp <= |s| && Headers(s, from, NO_FIELDS) == Headers(s, rp, fields)
      decreases |s| - rp
    {
      if !At(s, rp, CRLF) {
        return BadHead;
      }
      var n := SkipHeaderName(s, rp + 2);
      if n.BadName? {
        return Head(fields, rp + 2);
      }
      var next := Head(fields, n.end);
      if SameWord(s[rp + 2..n.end], CONTENT_DISPOSITION) {
        next := ParseDisposition(s, n.end, fields);
      } else if SameWord(s[rp + 2..n.end], CONTENT_TYPE) {
        next := ParseContentType(s, n.end, fields);
      }
      rp, fields := next.end, next.fields;
    }
  }

  method ParseNextPart(s: string, boundary: string, rp: nat) returns (n: Next)
    ensures n == NextPart(s, boundary, rp)
  {
    if rp >= |s| {
      return End;
    }
    if !Opens(s, boundary, rp) {
      return Malformed;
    }
    if At(s, rp + 2 + |boundary|, "--") {
      return End;
    }
    var h := ParseHeaders(s, rp + 2 + |boundary|);
    n := ParsePartBehind(s, boundary, h);
  }

  method ParsePartBehind(s: string, boundary: string, h: Head) returns (n: Next)
    requires h.Head? ==> h.end <= |s|
    ensures n == PartBehind(s, boundary, h)
  {
    if h.BadHead? || !IsFormData(h.fields.disposition) || h.fields.name.None? || !At(s, h.end, CRLF) {
      return Malformed;
    }
    var e := FindDelimiter(s, boundary, h.end + 2);
    if e.None? {
      return Malformed;
    }
    return Found(Item(h.fields.name.value, Stored(h.fields.filename), Stored(h.fields.ctype), s[h.end + 2..e.value]),
        e.value + 2);
  }

  /** The items found so far, with those from cp on, are all there are; kept folded. */
  ghost predicate Collected(s: string, boundary: string, all: Form, items: seq<Item>, cp: nat) {
    forall x: Form :: Peek(x) && x == all ==>
        x == Form(items + Parts(s, boundary, cp).items, Parts(s, boundary, cp).eof)
  }

  lemma PartsStep(s: string, boundary: string, cp: nat, n: Next)
    requires n == NextPart(s, boundary, cp)
    ensures n.Found? ==>
      var rest := Parts(s, boundary, n.next); Parts(s, boundary, cp) == Form([n.item] + rest.items, rest.eof)
    ensures !n.Found? ==> Parts(s, boundary, cp) == Form([], n.End?)
  {
  }

  lemma CollectedStep(s: string, boundary: string, all: Form, items: seq<Item>, cp: nat, n: Next)
    requires Collected(s, boundary, all, items, cp) && n == NextPart(s, boundary, cp)
    ensures n.Found? ==> Collected(s, boundary, all, items + [n.item], n.next)
    ensures !n.Found? ==> all == Form(items, n.End?)
  {
    assert all == Form(items + Parts(s, boundary, cp).items, Parts(s, boundary, cp).eof) by { assert Peek(all); }
    PartsStep(s, boundary, cp, n);
    if n.Found? {
      ItemsJoin(items, n.item, Parts(s, boundary, n.next).items);
    } else {
      assert items + [] == items;
    }
  }

  lemma ItemsJoin(a: seq<Item>, x: Item, b: seq<Item>)
    ensures a + ([x] + b) == a + [x] + b
  {
  }

  /** The parser of a whole form. */
  method ParseForm(s: string, boundary: string) returns (items: seq<Item>, eof: bool)
    ensures Form(items, eof) == Parts(s, boundary, 0)
  {
    items := [];
    var cp := 0;
    ghost var all := Parts(s, boundary, 0);
    assert [] + all.items == all.items;
    var n := ParseNextPart(s, boundary, cp);
    while n.Found?
      invariant n == NextPart(s, boundary, cp) && Collected(s, boundary, all, items, cp)
      decreases |s| - cp
    {
      CollectedStep(s, boundary, all, items, cp, n);
      items := items + [n.item];
      cp := n.next;
      n := ParseNextPart(s, boundary, cp);
    }
    CollectedStep(s, boundary, all, items, cp, n);
    eof := n.End?;
  }

  // ------------------------------------------------------------------ writing a body

  /** A parameter of a media type, written as a word or in quotes. */
  datatype MediaParam = Bare(key: string, val: string) | InQuotes(key: string, val: string)

  /** A media type with its parameters. */
  datatype Media = Media(main: string, params: seq<MediaParam>)

  datatype Part = Part(name: string, filename: Option<string>, ctype: Option<Media>, data: string)

  function WriteParam(p: MediaParam): string {
    if p.Bare? then BareForm(p.key, p.val) else QuotedForm(p.key, p.val)
  }

  function WriteParams(params: seq<MediaParam>): string {
    if params == [] then "" else ";" + WriteParam(params[0]) + WriteParams(params[1..])
  }

  function WriteMedia(m: Media): string {
    m.main + WriteParams(m.params)
  }

  function WriteDisposition(p: Part): string {
    (": " + FORM_DATA) + ";" + QuotedForm("name", p.name)
    + FilePart(p)
  }

  function WriteType(p: Part): string {
    if p.ctype.Some? then CRLF + "Content-Type" + (": " + p.ctype.value.main) + WriteParams(p.ctype.value.params)
      else ""
  }

  function HeadText(name: string, disposition: string, ctype: string): string {
    CRLF + name + disposition + ctype + CRLF
  }

  function WriteHead(p: Part): string {
    HeadText("Content-Disposition", WriteDisposition(p), WriteType(p))
  }

  function PartText(head: string, data: string, boundary: string): string {
    head + CRLF + data + (CRLF + "--" + boundary)
  }

  function WritePart(boundary: string, p: Part): string {
    PartText(WriteHead(p), p.data, boundary)
  }

  function Texts(boundary: string, parts: seq<Part>): seq<string> {
    seq(|parts|, i requires 0 <= i < |parts| => WritePart(boundary, parts[i]))
  }

  function Joined(texts: seq<string>): string {
    if texts == [] then "--" else texts[0] + Joined(texts[1..])
  }

  /** Section 4 of RFC 7578 and section 5.1 of RFC 2046, with anything behind the closing delimiter. */
  function WriteForm(boundary: string, parts: seq<Part>, epilogue: string): string {
    "--" + boundary + Joined(Texts(boundary, parts)) + epilogue
  }

  predicate GoodParam(p: MediaParam) {
    GoodKey(p.key) && if p.Bare? then GoodBare(p.val) else GoodQuoted(p.val)
  }

  predicate GoodParams(params: seq<MediaParam>) {
    forall i :: 0 <= i < |params| ==> GoodParam(params[i])
  }

  predicate GoodMedia(m: Media) {
    m.main != "" && KeyChar(m.main[0]) && (forall c :: c in m.main ==> KeyChar(c) || c == '/') && GoodParams(m.params)
  }

  predicate DelimiterFree(boundary: string, data: string) {
    forall i :: 0 <= i <= |data| ==> !At(data, i, CRLF + "--" + boundary)
  }

  predicate GoodPart(boundary: string, p: Part) {
    && GoodQuoted(p.name) && (p.filename.Some? ==> GoodQuoted(p.filename.value))
    && (p.ctype.Some? ==> GoodMedia(p.ctype.value)) && DelimiterFree(boundary, p.data)
  }

  /** What is stored of a part. */
  function Kept(p: Part): Item {
    Item(p.name, if p.filename.Some? then Stored(p.filename.value) else None,
      if p.ctype.Some? then Some(WriteMedia(p.ctype.value)) else None, p.data)
  }

  // ------------------------------------------------------------------ the round trip

  /** Disposition(s, rp, i, f) == h, kept folded. */
  ghost predicate Ends(s: string, rp: nat, i: nat, f: Fields, h: Head) {
    rp <= |s| && forall t: string :: Peek(t) && t == s ==> Disposition(t, rp, i, f) == h
  }

  lemma EndsStep(s: string, rp: nat, i: nat, f: Fields, p: Param, h: Head)
    requires p.Param? && Finds(s, rp, p) && Ends(s, p.next, i + 1, WithParam(f, i, p), h)
    ensures Ends(s, rp, i, f, h)
  {
    FindsOpen(s, rp, p);
    assert Disposition(s, p.next, i + 1, WithParam(f, i, p)) == h by { assert Peek(s); }
  }

  lemma EndsHere(s: string, rp: nat, i: nat, f: Fields)
    requires rp < |s| && s[rp] == '\r'
    ensures Ends(s, rp, i, f, Head(f, rp))
  {
    FindsLineEnd(s, rp);
    FindsOpen(s, rp, NoParam);
  }

  lemma KnownWords()
    ensures GoodKey("name") && GoodKey("filename")
    ensures FORM_DATA != "" && KeyChar(FORM_DATA[0]) && forall c :: c in FORM_DATA ==> KeyChar(c) || c == '/'
  {
  }

  lemma ParamMeaning(f: Fields, start: nat, val: string, next: nat)
    ensures WithParam(f, 1, Param(start, "name", val, next)) == f.(name := Some(val))
    ensures WithParam(f, 2, Param(start, "", "", next)) == f
    ensures WithParam(f, 3, Param(start, "filename", val, next)) == f.(filename := val)
  {
  }

  function WriteFilename(file: string): string {
    ";" + QuotedForm("filename", file)
  }

  /** A parameter behind the name, up to the end of the line. */
  lemma ThirdParam(s: string, q: nat, key: string, val: string, f: Fields, g: Fields, e: nat)
    requires GoodKey(key) && GoodQuoted(val) && q < |s| && s[q] == ';' && Has(s, q + 1, QuotedForm(key, val))
    requires e == q + 1 + |QuotedForm(key, val)| < |s| && s[e] == '\r'
    requires WithParam(f, 3, Param(q + 2, key, val, e)) == g && WithParam(f, 2, Param(q, "", "", q + 1)) == f
    ensures Ends(s, q, 2, f, Head(g, e))
  {
    EndsHere(s, e, 4, g);
    FindsQuoted(s, q + 1, key, val);
    EndsStep(s, q + 1, 3, f, Param(q + 2, key, val, e), Head(g, e));
    FindsSeparator(s, q);
    EndsStep(s, q, 2, f, Param(q, "", "", q + 1), Head(g, e));
  }

  lemma FilenameRead(s: string, q: nat, file: string, f: Fields, e: nat)
    requires GoodQuoted(file) && Has(s, q, WriteFilename(file))
    requires e == q + |WriteFilename(file)| < |s| && s[e] == '\r'
    ensures Ends(s, q, 2, f, Head(f.(filename := file), e))
  {
    HasJoin(s, q, ";", QuotedForm("filename", file));
    HasIndex(s, q, ";", 0);
    KnownWords();
    ParamMeaning(f, q + 2, file, e);
    ParamMeaning(f, q, file, q + 1);
    ThirdParam(s, q, "filename", file, f, f.(filename := file), e);
  }

  function Named(f: Fields, p: Part): Fields {
    f.(disposition := FORM_DATA, name := Some(p.name),
       filename := if p.filename.Some? then p.filename.value else f.filename)
  }

  lemma DispositionPieces(s: string, p: nat, main: string, name: string, file: string)
    requires Has(s, p, main + ";" + name + file)
    ensures var q := p + |main|;
      Has(s, p, main) && q < |s| && s[q] == ';' && Has(s, q + 1, name) && Has(s, q + 1 + |name|, file)
  {
    HasJoin(s, p, main + ";" + name, file);
    HasJoin(s, p, main + ";", name);
    HasJoin(s, p, main, ";");
    HasIndex(s, p + |main|, ";", 0);
  }

  /** The disposition and the name, when the rest is known. */
  lemma NameRead(s: string, p: nat, q: nat, e: nat, name: string, f: Fields, h: Head)
    requires GoodQuoted(name) && Has(s, p, ": " + FORM_DATA) && q == p + 12 <= |s| && s[q - 1] == ';'
    requires Has(s, q, QuotedForm("name", name)) && e == q + |QuotedForm("name", name)|
    requires Ends(s, e, 2, f.(disposition := FORM_DATA, name := Some(name)), h)
    ensures Ends(s, p, 0, f, h)
  {
    KnownWords();
    var g := f.(disposition := FORM_DATA);
    FindsQuoted(s, q, "name", name);
    ParamMeaning(g, q + 1, name, e);
    EndsStep(s, q, 1, g, Param(q + 1, "name", name, e), h);
    FindsValue(s, p, FORM_DATA, q - 1);
    EndsStep(s, p, 0, f, Param(p + 2, FORM_DATA, "", q), h);
  }

  function FilePart(part: Part): string {
    if part.filename.Some? then WriteFilename(part.filename.value) else ""
  }

  /** The pieces of a Content-Disposition header written from p to `end`. */
  lemma DispositionSplit(s: string, p: nat, q: nat, e: nat, part: Part, end: nat)
    requires Has(s, p, WriteDisposition(part)) && end == p + |WriteDisposition(part)|
    requires q == p + 12 && e == q + |QuotedForm("name", part.name)|
    ensures Has(s, p, ": " + FORM_DATA) && q <= |s| && s[p] == ':' && s[q - 1] == ';'
    ensures Has(s, q, QuotedForm("name", part.name)) && Has(s, e, FilePart(part)) && end == e + |FilePart(part)|
  {
    DispositionPieces(s, p, ": " + FORM_DATA, QuotedForm("name", part.name), FilePart(part));
    HasIndex(s, p, ": " + FORM_DATA, 0);
  }

  lemma DispositionRead(s: string, p: nat, q: nat, e: nat, part: Part, f: Fields, end: nat)
    requires GoodQuoted(part.name) && (part.filename.Some? ==> GoodQuoted(part.filename.value))
    requires Has(s, p, ": " + FORM_DATA) && q == p + 12 <= |s| && s[q - 1] == ';'
    requires Has(s, q, QuotedForm("name", part.name)) && e == q + |QuotedForm("name", part.name)|
    requires Has(s, e, FilePart(part)) && end == e + |FilePart(part)| < |s| && s[end] == '\r'
    ensures Ends(s, p, 0, f, Head(Named(f, part), end))
  {
    FileRead(s, e, part.filename, f.(disposition := FORM_DATA, name := Some(part.name)), end);
    NameRead(s, p, q, e, part.name, f, Head(Named(f, part), end));
  }

  lemma FileRead(s: string, e: nat, file: Option<string>, g: Fields, end: nat)
    requires file.Some? ==> GoodQuoted(file.value) && Has(s, e, WriteFilename(file.value))
    requires end == e + (if file.Some? then |WriteFilename(file.value)| else 0) < |s| && s[end] == '\r'
    ensures Ends(s, e, 2, g, Head(g.(filename := if file.Some? then file.value else g.filename), end))
  {
    if file.Some? {
      FilenameRead(s, e, file.value, g, end);
    } else {
      EndsHere(s, e, 2, g);
    }
  }

  // The content type.

  /** TypeEnd(s, rp) == e, kept folded. */
  ghost predicate TypeEnds(s: string, rp: nat, e: nat) {
    rp <= |s| && forall t: string :: Peek(t) && t == s ==> TypeEnd(t, rp) == e
  }

  lemma TypeStep(s: string, rp: nat, p: Param, e: nat)
    requires p.Param? && Finds(s, rp, p) && TypeEnds(s, p.next, e)
    ensures TypeEnds(s, rp, e)
  {
    FindsOpen(s, rp, p);
    assert TypeEnd(s, p.next) == e by { assert Peek(s); }
  }

  lemma TypeHere(s: string, rp: nat)
    requires rp < |s| && s[rp] == '\r'
    ensures TypeEnds(s, rp, rp)
  {
    FindsLineEnd(s, rp);
    FindsOpen(s, rp, NoParam);
  }

  lemma SplitBehind(s: string, q: nat, form: string, rest: string, next: nat)
    requires Has(s, q, ";" + form + rest) && next == q + 1 + |form|
    ensures q < |s| && s[q] == ';' && Has(s, q + 1, form) && Has(s, next, rest)
      && |";" + form + rest| == next - q + |rest|
  {
    HasJoin(s, q, ";" + form, rest);
    HasJoin(s, q, ";", form);
    HasIndex(s, q, ";", 0);
  }

  lemma ParamsSplit(s: string, q: nat, params: seq<MediaParam>, form: string, next: nat)
    requires params != [] && Has(s, q, WriteParams(params))
    requires form == WriteParam(params[0]) && next == q + 1 + |form|
    ensures s[q] == ';' && Has(s, q + 1, form) && Has(s, next, WriteParams(params[1..]))
    ensures |WriteParams(params)| == next - q + |WriteParams(params[1..])|
  {
    SplitBehind(s, q, form, WriteParams(params[1..]), next);
  }

  /** Where scanning goes on in front of the written parameters. */
  function Behind(q: nat, params: seq<MediaParam>): nat {
    if params == [] then q else q + 1
  }

  /** The parameter before is found up to its semicolon, or up to the end of the line. */
  lemma StopsAt(s: string, q: nat, params: seq<MediaParam>, e: nat)
    requires Has(s, q, WriteParams(params)) && e == q + |WriteParams(params)| < |s| && s[e] == '\r'
    ensures q < |s| && (s[q] == ';' || s[q] == '\r') && Behind(q, params) == if s[q] == ';' then q + 1 else q
  {
    if params != [] {
      var form := WriteParam(params[0]);
      ParamsSplit(s, q, params, form, q + 1 + |form|);
    }
  }

  /** One parameter, when what follows it is known; behind quotes the semicolon is found as a parameter of its
      own. */
  lemma ParamRead(s: string, q: nat, p: MediaParam, next: nat, e: nat)
    requires GoodParam(p) && Has(s, q, WriteParam(p)) && next == q + |WriteParam(p)| < |s|
    requires s[next] == ';' || s[next] == '\r'
    requires TypeEnds(s, if s[next] == ';' then next + 1 else next, e)
    ensures TypeEnds(s, q, e)
  {
    if p.Bare? {
      FindsBare(s, q, p.key, p.val, next);
      TypeStep(s, q, Param(q + 1, p.key, p.val, if s[next] == ';' then next + 1 else next), e);
    } else {
      if s[next] == ';' {
        FindsSeparator(s, next);
        TypeStep(s, next, Param(next, "", "", next + 1), e);
      }
      FindsQuoted(s, q, p.key, p.val);
      TypeStep(s, q, Param(q + 1, p.key, p.val, next), e);
    }
  }

  /** Good parameters are written from q to the end of the line at e; kept folded. */
  ghost predicate Listed(s: string, q: nat, params: seq<MediaParam>, e: nat) {
    forall x: seq<MediaParam> :: Peek(x) && x == params ==>
        GoodParams(x) && Has(s, q, WriteParams(x)) && e == q + |WriteParams(x)| < |s| && s[e] == '\r'
  }

  lemma ListedSplit(s: string, q: nat, params: seq<MediaParam>, e: nat, next: nat)
    requires Listed(s, q, params, e) && params != [] && next == q + 1 + |WriteParam(params[0])|
    ensures GoodParam(params[0]) && Has(s, q + 1, WriteParam(params[0])) && Listed(s, next, params[1..], e)
    ensures next < |s| && (s[next] == ';' || s[next] == '\r')
    ensures Behind(next, params[1..]) == if s[next] == ';' then next + 1 else next
  {
    assert Peek(params);
    ParamsSplit(s, q, params, WriteParam(params[0]), next);
    StopsAt(s, next, params[1..], e);
  }

  lemma {:induction false} ListRead(s: string, q: nat, params: seq<MediaParam>, e: nat)
    requires Listed(s, q, params, e)
    ensures TypeEnds(s, Behind(q, params), e)
    decreases |params|
  {
    if params == [] {
      assert Peek(params);
      TypeHere(s, q);
    } else {
      var next := q + 1 + |WriteParam(params[0])|;
      ListedSplit(s, q, params, e, next);
      ListRead(s, next, params[1..], e);
      ParamRead(s, q + 1, params[0], next, e);
    }
  }

  lemma ParamsRead(s: string, q: nat, params: seq<MediaParam>, e: nat)
    requires GoodParams(params) && Has(s, q, WriteParams(params)) && e == q + |WriteParams(params)| < |s|
      && s[e] == '\r'
    ensures TypeEnds(s, Behind(q, params), e)
  {
    ListRead(s, q, params, e);
  }

  lemma TypeText(s: string, p: nat, main: string, params: string, e: nat)
    requires Has(s, p, ": " + main) && Has(s, p + 2 + |main|, params) && e == p + 2 + |main| + |params|
    ensures e <= |s| && s[p + 2..e] == main + params
  {
    HasJoin(s, p, ": ", main);
    HasJoin(s, p + 2, main, params);
    HasIsAt(s, p + 2, main + params);
  }

  /** ContentType(s, p, f) == h, kept folded. */
  ghost predicate TypeIs(s: string, p: nat, f: Fields, h: Head) {
    p <= |s| && forall t: string :: Peek(t) && t == s ==> ContentType(t, p, f) == h
  }

  lemma TypeRead(s: string, p: nat, q: nat, m: Media, f: Fields, e: nat)
    requires GoodMedia(m) && Has(s, p, ": " + m.main) && q == p + 2 + |m.main| && Has(s, q, WriteParams(m.params))
    requires e == q + |WriteParams(m.params)| < |s| && s[e] == '\r'
    ensures TypeIs(s, p, f, Head(f.(ctype := WriteMedia(m)), e))
  {
    ParamsRead(s, q, m.params, e);
    StopsAt(s, q, m.params, e);
    FindsValue(s, p, m.main, q);
    var first := Param(p + 2, m.main, "", Behind(q, m.params));
    TypeStep(s, p, first, e);
    TypeText(s, p, m.main, WriteParams(m.params), e);
    TypeFound(s, p, first, f, e);
  }

  lemma TypeFound(s: string, p: nat, first: Param, f: Fields, e: nat)
    requires first.Param? && Finds(s, p, first) && TypeEnds(s, p, e) && first.start <= e <= |s|
    ensures TypeIs(s, p, f, Head(f.(ctype := s[first.start..e]), e))
  {
    FindsOpen(s, p, first);
    assert TypeEnd(s, p) == e by { assert Peek(s); }
  }

  // The header block.

  /** Headers(s, rp, f) == h, kept folded. */
  ghost predicate HeadIs(s: string, rp: nat, f: Fields, h: Head) {
    rp <= |s| && forall t: string :: Peek(t) && t == s ==> Headers(t, rp, f) == h
  }

  lemma {:induction false} SkipRun(s: string, sp: nat, rp: nat, e: nat)
    requires sp <= rp <= e <= |s| && forall i :: rp <= i < e ==> IsWord(s[i])
    ensures SkipName(s, sp, rp) == SkipName(s, sp, e)
    decreases e - rp
  {
    if rp < e {
      SkipRun(s, sp, rp + 1, e);
    }
  }

  lemma NameSkipped(s: string, p: nat, name: string)
    requires GoodKey(name) && Has(s, p, name) && p + |name| < |s| && s[p + |name|] == ':'
    ensures SkipName(s, p, p) == NameTo(p + |name|)
  {
    WordsAt(s, p, name);
    SkipRun(s, p, p, p + |name|);
  }

  lemma HeadStepDisposition(s: string, rp: nat, name: string, f: Fields, g: Head, h: Head)
    requires Has(s, rp, CRLF) && GoodKey(name) && SameWord(name, CONTENT_DISPOSITION)
    requires Has(s, rp + 2, name) && rp + 2 + |name| < |s| && s[rp + 2 + |name|] == ':'
    requires g.Head? && Ends(s, rp + 2 + |name|, 0, f, g) && HeadIs(s, g.end, g.fields, h)
    ensures HeadIs(s, rp, f, h)
  {
    NameSkipped(s, rp + 2, name);
    HasIsAt(s, rp, CRLF);
    HasIsAt(s, rp + 2, name);
    assert Disposition(s, rp + 2 + |name|, 0, f) == g && Headers(s, g.end, g.fields) == h by { assert Peek(s); }
  }

  lemma HeadStepType(s: string, rp: nat, name: string, f: Fields, g: Head, h: Head)
    requires Has(s, rp, CRLF) && GoodKey(name) && SameWord(name, CONTENT_TYPE)
    requires Has(s, rp + 2, name) && rp + 2 + |name| < |s| && s[rp + 2 + |name|] == ':'
    requires g.Head? && TypeIs(s, rp + 2 + |name|, f, g) && HeadIs(s, g.end, g.fields, h)
    ensures HeadIs(s, rp, f, h)
  {
    NameSkipped(s, rp + 2, name);
    HasIsAt(s, rp, CRLF);
    HasIsAt(s, rp + 2, name);
    assert ContentType(s, rp + 2 + |name|, f) == g && Headers(s, g.end, g.fields) == h by { assert Peek(s); }
  }

  lemma HeadStops(s: string, rp: nat, f: Fields)
    requires Has(s, rp, CRLF) && rp + 2 < |s| && s[rp + 2] == '\r'
    ensures HeadIs(s, rp, f, Head(f, rp + 2))
  {
    HasIsAt(s, rp, CRLF);
  }

  lemma Split4(s: string, p: nat, a: string, b: string, c: string, d: string)
    requires Has(s, p, a + b + c + d)
    ensures Has(s, p, a) && Has(s, p + |a|, b) && Has(s, p + |a| + |b|, c) && Has(s, p + |a| + |b| + |c|, d)
  {
    HasJoin(s, p, a + b + c, d);
    HasJoin(s, p, a + b, c);
    HasJoin(s, p, a, b);
  }

  lemma WordJoin(a: string, b: string)
    requires GoodKey(a) && GoodKey(b)
    ensures GoodKey(a + b)
  {
  }

  lemma DispositionWord()
    ensures GoodKey("Content-Disposition")
  {
    var a, b := "Content-", "Disposition";
    assert a + b == "Content-Disposition";
    HalfWords();
    WordJoin(a, b);
  }

  lemma HalfWords()
    ensures GoodKey("Content-") && GoodKey("Disposition")
  {
  }

  lemma DispositionName()
    ensures SameWord("Content-Disposition", CONTENT_DISPOSITION)
  {
  }

  lemma TypeWord()
    ensures GoodKey("Content-Type") && SameWord("Content-Type", CONTENT_TYPE)
  {
  }

  /** The fields of a header block as written. */
  function Filled(f: Fields, p: Part): Fields {
    if p.ctype.Some? then f.(ctype := WriteMedia(p.ctype.value)) else f
  }

  /** The pieces of a Content-Type header, whose name is given. */
  lemma TypeLine(s: string, e1: nat, name: string, main: string, params: string, q: nat, r: nat)
    requires Has(s, e1, CRLF + name + (": " + main) + params) && q == e1 + 2 + |name| && r == q + 2 + |main|
    ensures Has(s, e1, CRLF) && Has(s, e1 + 2, name) && Has(s, q, ": " + main) && Has(s, r, params)
    ensures q < |s| && s[q] == ':' && e1 + |CRLF + name + (": " + main) + params| == r + |params|
  {
    Split4(s, e1, CRLF, name, ": " + main, params);
    HasIndex(s, q, ": " + main, 0);
  }

  lemma TypeSplit(s: string, e1: nat, part: Part, m: Media, q: nat, r: nat, e2: nat)
    requires part.ctype == Some(m) && Has(s, e1, WriteType(part)) && e2 == e1 + |WriteType(part)|
    requires q == e1 + 14 && r == q + 2 + |m.main|
    ensures Has(s, e1, CRLF) && Has(s, e1 + 2, "Content-Type") && q < |s| && s[q] == ':'
    ensures Has(s, q, ": " + m.main) && Has(s, r, WriteParams(m.params)) && e2 == r + |WriteParams(m.params)|
  {
    TypeLine(s, e1, "Content-Type", m.main, WriteParams(m.params), q, r);
  }

  /** A content type that reads as g, and the end of the header block. */
  lemma TypeBlock(s: string, e1: nat, q: nat, name: string, f: Fields, g: Fields, e2: nat)
    requires Has(s, e1, CRLF) && GoodKey(name) && SameWord(name, CONTENT_TYPE) && Has(s, e1 + 2, name)
    requires q == e1 + 2 + |name| < |s| && s[q] == ':' && TypeIs(s, q, f, Head(g, e2))
    requires Has(s, e2, CRLF) && e2 + 2 < |s| && s[e2 + 2] == '\r'
    ensures HeadIs(s, e1, f, Head(g, e2 + 2))
  {
    HeadStops(s, e2, g);
    HeadStepType(s, e1, name, f, Head(g, e2), Head(g, e2 + 2));
  }

  lemma TypedRest(s: string, e1: nat, part: Part, m: Media, f: Fields, e2: nat)
    requires part.ctype == Some(m) && GoodMedia(m) && Has(s, e1, WriteType(part))
    requires e2 == e1 + |WriteType(part)| && Has(s, e2, CRLF)
    ensures Has(s, e1, CRLF) && Has(s, e1 + 2, "Content-Type") && e1 + 14 < |s| && s[e1 + 14] == ':'
    ensures TypeIs(s, e1 + 14, f, Head(f.(ctype := WriteMedia(m)), e2))
  {
    var q := e1 + 14;
    var r := q + 2 + |m.main|;
    TypeSplit(s, e1, part, m, q, r, e2);
    HasIndex(s, e2, CRLF, 0);
    TypeRead(s, q, r, m, f, e2);
  }

  /** The optional content type and the end of the header block, from e1 on. */
  lemma RestOfHead(s: string, e1: nat, part: Part, f: Fields, e2: nat)
    requires (part.ctype.Some? ==> GoodMedia(part.ctype.value)) && Has(s, e1, WriteType(part))
    requires e2 == e1 + |WriteType(part)| && Has(s, e2, CRLF) && e2 + 2 < |s| && s[e2 + 2] == '\r'
    ensures HeadIs(s, e1, f, Head(Filled(f, part), e2 + 2))
  {
    if part.ctype.Some? {
      TypedRest(s, e1, part, part.ctype.value, f, e2);
      TypeWord();
      TypeBlock(s, e1, e1 + 14, "Content-Type", f, Filled(f, part), e2);
    } else {
      HeadStops(s, e2, f);
    }
  }

  lemma FirstOf(s: string, e: nat, part: Part)
    requires Has(s, e, WriteType(part)) && Has(s, e + |WriteType(part)|, CRLF)
    ensures e < |s| && s[e] == '\r'
  {
    if part.ctype.Some? {
      Split4(s, e, CRLF, "Content-Type", ": " + part.ctype.value.main, WriteParams(part.ctype.value.params));
    }
    HasIndex(s, e, CRLF, 0);
  }

  lemma HeadSplit(s: string, rp: nat, name: string, disposition: string, ctype: string, q: nat, e1: nat, e2: nat)
    requires Has(s, rp, HeadText(name, disposition, ctype))
    requires q == rp + 2 + |name| && e1 == q + |disposition| && e2 == e1 + |ctype|
    ensures Has(s, rp, CRLF) && Has(s, rp + 2, name) && Has(s, q, disposition) && Has(s, e1, ctype) && Has(s, e2, CRLF)
    ensures rp + |HeadText(name, disposition, ctype)| == e2 + 2
  {
    HasJoin(s, rp, CRLF + name + disposition + ctype, CRLF);
    Split4(s, rp, CRLF, name, disposition, ctype);
  }

  lemma HeadPieces(s: string, rp: nat, part: Part, q: nat, e1: nat, e2: nat)
    requires Has(s, rp, WriteHead(part)) && q == rp + 21 && e1 == q + |WriteDisposition(part)|
      && e2 == e1 + |WriteType(part)|
    ensures Has(s, rp, CRLF) && Has(s, rp + 2, "Content-Disposition") && Has(s, q, WriteDisposition(part))
    ensures Has(s, e1, WriteType(part)) && Has(s, e2, CRLF) && rp + |WriteHead(part)| == e2 + 2
  {
    HeadSplit(s, rp, "Content-Disposition", WriteDisposition(part), WriteType(part), q, e1, e2);
  }

  lemma HeadRead(s: string, rp: nat, boundary: string, part: Part)
    requires GoodPart(boundary, part) && Has(s, rp, WriteHead(part)) && Has(s, rp + |WriteHead(part)|, CRLF)
    ensures HeadIs(s, rp, NO_FIELDS, Head(Filled(Named(NO_FIELDS, part), part), rp + |WriteHead(part)|))
  {
    var q := rp + 21;
    var e1 := q + |WriteDisposition(part)|;
    var e2 := e1 + |WriteType(part)|;
    HeadPieces(s, rp, part, q, e1, e2);
    HasIndex(s, e2 + 2, CRLF, 0);
    HeadFrom(s, rp, boundary, part, q, e1, e2);
  }

  /** A disposition that reads as f, and the rest of the header block. */
  lemma HeadFrom(s: string, rp: nat, boundary: string, part: Part, q: nat, e1: nat, e2: nat)
    requires GoodPart(boundary, part) && q == rp + 21 && e1 == q + |WriteDisposition(part)|
      && e2 == e1 + |WriteType(part)|
    requires Has(s, rp, CRLF) && Has(s, rp + 2, "Content-Disposition") && Has(s, q, WriteDisposition(part))
    requires Has(s, e1, WriteType(part)) && Has(s, e2, CRLF) && e2 + 2 < |s| && s[e2 + 2] == '\r'
    ensures HeadIs(s, rp, NO_FIELDS, Head(Filled(Named(NO_FIELDS, part), part), e2 + 2))
  {
    var f := Named(NO_FIELDS, part);
    RestOfHead(s, e1, part, f, e2);
    FirstOf(s, e1, part);
    DispositionBlock(s, q, part, e1);
    DispositionWord();
    DispositionName();
    HeadStepDisposition(s, rp, "Content-Disposition", NO_FIELDS, Head(f, e1), Head(Filled(f, part), e2 + 2));
  }

  lemma DispositionBlock(s: string, q: nat, part: Part, e1: nat)
    requires GoodQuoted(part.name) && (part.filename.Some? ==> GoodQuoted(part.filename.value))
    requires Has(s, q, WriteDisposition(part)) && e1 == q + |WriteDisposition(part)| < |s| && s[e1] == '\r'
    ensures s[q] == ':' && Ends(s, q, 0, NO_FIELDS, Head(Named(NO_FIELDS, part), e1))
  {
    var p := q + 12;
    var e := p + |QuotedForm("name", part.name)|;
    DispositionSplit(s, q, p, e, part, e1);
    DispositionRead(s, q, p, e, part, NO_FIELDS, e1);
  }

  // The data and the whole form.

  lemma {:induction false} DataEndIs(s: string, boundary: string, d: nat, e: nat)
    requires d <= e && Delimits(s, boundary, e) && forall p :: d <= p < e ==> !Delimits(s, boundary, p)
    ensures e <= |s| && DataEnd(s, boundary, d) == Some(e)
    decreases e - d
  {
    if d < e {
      DataEndIs(s, boundary, d + 1, e);
    }
  }

  lemma WithinData(s: string, data: string, d: nat, p: nat, t: string)
    requires Has(s, d, data) && d <= p && p + |t| <= d + |data| && Has(s, p, t)
    ensures At(data, p - d, t)
  {
    forall i | 0 <= i < |t|
      ensures data[p - d + i] == t[i]
    {
      HasIndex(s, d, data, p - d + i);
      HasIndex(s, p, t, i);
    }
  }

  lemma DelimiterBytes(boundary: string, i: nat)
    requires '\r' !in boundary && 0 < i < |CRLF + "--" + boundary|
    ensures (CRLF + "--" + boundary)[i] != '\r'
  {
    if i >= 4 {
      assert (CRLF + "--" + boundary)[i] == boundary[i - 4];
    }
  }

  /** A delimiter without a carriage return of its own cannot overlap the next one. */
  lemma NoEarlierDelimiter(s: string, boundary: string, data: string, d: nat, p: nat)
    requires '\r' !in boundary && DelimiterFree(boundary, data) && Has(s, d, data)
    requires d <= p < d + |data| && d + |data| < |s| && s[d + |data|] == '\r'
    ensures !Has(s, p, CRLF + "--" + boundary)
  {
    var delim, e := CRLF + "--" + boundary, d + |data|;
    if Has(s, p, delim) {
      if p + |delim| <= e {
        WithinData(s, data, d, p, delim);
      } else {
        DelimiterBytes(boundary, e - p);
        HasIndex(s, p, delim, e - p);
      }
    }
  }

  /** The delimiter line or the closing delimiter at e, kept folded. */
  ghost predicate HasDelimiter(s: string, boundary: string, e: nat) {
    Has(s, e, CRLF + "--" + boundary) && (Has(s, e + 4 + |boundary|, CRLF) || Has(s, e + 4 + |boundary|, "--"))
  }

  lemma DelimiterIs(s: string, boundary: string, e: nat)
    ensures HasDelimiter(s, boundary, e) <==> Delimits(s, boundary, e)
  {
    HasIsAt(s, e, CRLF + "--" + boundary);
    HasIsAt(s, e + 4 + |boundary|, CRLF);
    HasIsAt(s, e + 4 + |boundary|, "--");
  }

  /** Data written in front of a delimiter is taken up to that delimiter. */
  lemma DataRead(s: string, boundary: string, data: string, d: nat, e: nat)
    requires '\r' !in boundary && DelimiterFree(boundary, data) && Has(s, d, data)
    requires e == d + |data| && HasDelimiter(s, boundary, e)
    ensures DataEnd(s, boundary, d) == Some(e) && s[d..e] == data
  {
    HasIndex(s, e, CRLF + "--" + boundary, 0);
    forall p | d <= p < e
      ensures !Delimits(s, boundary, p)
    {
      DelimiterIs(s, boundary, p);
      NoEarlierDelimiter(s, boundary, data, d, p);
    }
    DelimiterIs(s, boundary, e);
    DataEndIs(s, boundary, d, e);
    HasIsAt(s, d, data);
  }

  lemma FormDataWord()
    ensures IsFormData(FORM_DATA)
  {
    assert FORM_DATA[..|FORM_DATA|] == FORM_DATA;
  }

  /** A good part for a boundary without a carriage return, kept folded. */
  ghost predicate Fit(boundary: string, part: Part) {
    forall b: string :: Peek(b) && b == boundary ==> '\r' !in b && GoodPart(b, part)
  }

  /** PartBehind(s, boundary, h) == n, kept folded. */
  ghost predicate BehindIs(s: string, boundary: string, h: Head, n: Next) {
    (h.Head? ==> h.end <= |s|) && forall t: string :: Peek(t) && t == s ==> PartBehind(t, boundary, h) == n
  }

  lemma FitOpen(boundary: string, part: Part)
    requires Fit(boundary, part)
    ensures '\r' !in boundary && DelimiterFree(boundary, part.data)
    ensures part.ctype.Some? ==> part.ctype.value.main != ""
  {
    assert Peek(boundary);
  }

  lemma PartBehindRead(s: string, boundary: string, part: Part, end: nat, next: nat)
    requires Fit(boundary, part) && Has(s, end, CRLF) && Has(s, end + 2, part.data)
    requires next == end + 4 + |part.data| && HasDelimiter(s, boundary, next - 2)
    ensures BehindIs(s, boundary, Head(Filled(Named(NO_FIELDS, part), part), end), Found(Kept(part), next))
    ensures end + 4 <= |s|
  {
    FitOpen(boundary, part);
    DataRead(s, boundary, part.data, end + 2, next - 2);
    HasIsAt(s, end, CRLF);
    DataFound(s, boundary, part, Filled(Named(NO_FIELDS, part), part), end, next);
  }

  lemma DataFound(s: string, boundary: string, part: Part, f: Fields, end: nat, next: nat)
    requires f == Filled(Named(NO_FIELDS, part), part) && (part.ctype.Some? ==> part.ctype.value.main != "")
    requires end + 4 <= next <= |s| && At(s, end, CRLF)
    requires DataEnd(s, boundary, end + 2) == Some(next - 2) && s[end + 2..next - 2] == part.data
    ensures BehindIs(s, boundary, Head(f, end), Found(Kept(part), next))
  {
    FormDataWord();
    KeptFields(part);
    PartBehindIs(s, boundary, f, part.name, end, next - 2);
  }

  lemma KeptFields(part: Part)
    requires part.ctype.Some? ==> part.ctype.value.main != ""
    ensures var f := Filled(Named(NO_FIELDS, part), part);
      f.disposition == FORM_DATA && f.name == Some(part.name)
      && Kept(part) == Item(part.name, Stored(f.filename), Stored(f.ctype), part.data)
  {
  }

  lemma PartBehindIs(s: string, boundary: string, f: Fields, name: string, end: nat, e: nat)
    requires end <= |s| && IsFormData(f.disposition) && f.name == Some(name) && At(s, end, CRLF)
    requires DataEnd(s, boundary, end + 2) == Some(e)
    ensures PartBehind(s, boundary, Head(f, end)) ==
      Found(Item(name, Stored(f.filename), Stored(f.ctype), s[end + 2..e]), e + 2)
  {
  }

  /** NextPart(s, boundary, rp) == n, kept folded. */
  ghost predicate NextIs(s: string, boundary: string, rp: nat, n: Next) {
    forall t: string :: Peek(t) && t == s ==> NextPart(t, boundary, rp) == n
  }

  lemma NextOf(s: string, boundary: string, p: nat, q: nat, h: Head, n: Next)
    requires Has(s, p, "--") && Has(s, p + 2, boundary) && q == p + 2 + |boundary| && q + 2 <= |s| && !At(s, q, "--")
    requires HeadIs(s, q, NO_FIELDS, h) && BehindIs(s, boundary, h, n)
    ensures NextIs(s, boundary, p, n)
  {
    HasIsAt(s, p, "--");
    HasIsAt(s, p + 2, boundary);
    assert Headers(s, q, NO_FIELDS) == h && PartBehind(s, boundary, h) == n by { assert Peek(s); }
  }

  /** The pieces of a part, and the delimiter that starts what follows it. */
  lemma PartSplit(s: string, rp: nat, head: string, data: string, boundary: string, end: nat, next: nat)
    requires Has(s, rp, PartText(head, data, boundary)) && end == rp + |head| && next == end + 4 + |data|
    ensures Has(s, rp, head) && Has(s, end, CRLF) && Has(s, end + 2, data) && Has(s, next - 2, CRLF + "--" + boundary)
    ensures Has(s, next, "--") && Has(s, next + 2, boundary)
      && rp + |PartText(head, data, boundary)| == next + 2 + |boundary|
  {
    Split4(s, rp, head, CRLF, data, CRLF + "--" + boundary);
    DelimiterSplit(s, boundary, next);
  }

  lemma DelimiterSplit(s: string, boundary: string, next: nat)
    requires 2 <= next && Has(s, next - 2, CRLF + "--" + boundary)
    ensures Has(s, next, "--") && Has(s, next + 2, boundary)
  {
    HasJoin(s, next - 2, CRLF + "--", boundary);
    HasJoin(s, next - 2, CRLF, "--");
  }

  /** A part behind its header block, whatever that block is. */
  lemma PartFrom(s: string, boundary: string, p: nat, q: nat, part: Part, end: nat, next: nat)
    requires Fit(boundary, part) && Has(s, p, "--") && Has(s, p + 2, boundary) && q == p + 2 + |boundary|
    requires q <= end && next == end + 4 + |part.data|
    requires Has(s, end, CRLF) && Has(s, end + 2, part.data) && HasDelimiter(s, boundary, next - 2)
    requires !At(s, q, "--") && HeadIs(s, q, NO_FIELDS, Head(Filled(Named(NO_FIELDS, part), part), end))
    ensures NextIs(s, boundary, p, Found(Kept(part), next))
  {
    var h := Head(Filled(Named(NO_FIELDS, part), part), end);
    PartBehindRead(s, boundary, part, end, next);
    NextOf(s, boundary, p, q, h, Found(Kept(part), next));
  }

  /** head == WriteHead(part), kept folded. */
  ghost predicate WroteHead(part: Part, head: string) {
    forall h: string :: Peek(h) && h == head ==> h == WriteHead(part)
  }

  lemma WroteHeadRead(s: string, rp: nat, boundary: string, part: Part, head: string)
    requires Fit(boundary, part) && WroteHead(part, head) && Has(s, rp, head) && Has(s, rp + |head|, CRLF)
    ensures HeadIs(s, rp, NO_FIELDS, Head(Filled(Named(NO_FIELDS, part), part), rp + |head|))
  {
    assert head == WriteHead(part) by { assert Peek(head); }
    assert GoodPart(boundary, part) by { assert Peek(boundary); }
    HeadRead(s, rp, boundary, part);
  }

  lemma WroteHeadStarts(s: string, rp: nat, part: Part, head: string)
    requires WroteHead(part, head) && Has(s, rp, head)
    ensures !At(s, rp, "--")
  {
    assert head == WriteHead(part) by { assert Peek(head); }
    StartsLine(s, rp, part);
  }

  lemma PartRead(s: string, boundary: string, p: nat, q: nat, part: Part, head: string, next: nat, r: nat)
    requires Fit(boundary, part) && Has(s, p, "--") && Has(s, p + 2, boundary) && q == p + 2 + |boundary|
    requires WroteHead(part, head) && Has(s, q, PartText(head, part.data, boundary))
    requires next == p + |PartText(head, part.data, boundary)| && r == next + 2 + |boundary|
    requires Has(s, r, CRLF) || Has(s, r, "--")
    ensures NextIs(s, boundary, p, Found(Kept(part), next)) && Has(s, next, "--") && Has(s, next + 2, boundary)
  {
    var end := q + |head|;
    PartSplit(s, q, head, part.data, boundary, end, next);
    WroteHeadRead(s, q, boundary, part, head);
    WroteHeadStarts(s, q, part, head);
    DelimiterAt(s, boundary, next, r);
    PartFrom(s, boundary, p, q, part, end, next);
  }

  lemma DelimiterAt(s: string, boundary: string, next: nat, r: nat)
    requires 2 <= next && Has(s, next - 2, CRLF + "--" + boundary) && r == next + 2 + |boundary|
    requires Has(s, r, CRLF) || Has(s, r, "--")
    ensures HasDelimiter(s, boundary, next - 2)
  {
  }

  lemma StartsLine(s: string, rp: nat, part: Part)
    requires Has(s, rp, WriteHead(part))
    ensures rp < |s| && s[rp] == '\r' && !At(s, rp, "--")
  {
    HasIndex(s, rp, WriteHead(part), 0);
  }

  /** text == WritePart(boundary, part), kept folded. */
  ghost predicate Wrote(boundary: string, part: Part, text: string) {
    forall b: string :: Peek(b) && b == boundary ==> text == WritePart(b, part)
  }

  lemma WroteRead(s: string, boundary: string, p: nat, q: nat, part: Part, text: string, next: nat, r: nat)
    requires Fit(boundary, part) && Has(s, p, "--") && Has(s, p + 2, boundary) && q == p + 2 + |boundary|
    requires Wrote(boundary, part, text) && Has(s, q, text) && next == p + |text| && r == next + 2 + |boundary|
    requires Has(s, r, CRLF) || Has(s, r, "--")
    ensures NextIs(s, boundary, p, Found(Kept(part), next)) && Has(s, next, "--") && Has(s, next + 2, boundary)
  {
    assert text == WritePart(boundary, part) by { assert Peek(boundary); }
    PartRead(s, boundary, p, q, part, WriteHead(part), next, r);
  }

  lemma WroteStarts(s: string, q: nat, boundary: string, part: Part, text: string)
    requires Wrote(boundary, part, text) && Has(s, q, text)
    ensures Has(s, q, CRLF)
  {
    assert text == WritePart(boundary, part) by { assert Peek(boundary); }
    PartStarts(s, q, boundary, part);
  }

  lemma PartStarts(s: string, q: nat, boundary: string, part: Part)
    requires Has(s, q, WritePart(boundary, part))
    ensures Has(s, q, CRLF)
  {
    var head := WriteHead(part);
    PartSplit(s, q, head, part.data, boundary, q + |head|, q + |head| + 4 + |part.data|);
    var e1 := q + 21 + |WriteDisposition(part)|;
    HeadPieces(s, q, part, q + 21, e1, e1 + |WriteType(part)|);
  }

  /** The texts are the good parts as written, kept folded. */
  ghost predicate WroteAll(boundary: string, parts: seq<Part>, texts: seq<string>) {
    |texts| == |parts| &&
    forall i: int {:trigger Peek(i)} ::
      Peek(i) && 0 <= i < |parts| ==> Fit(boundary, parts[i]) && Wrote(boundary, parts[i], texts[i])
  }

  lemma WroteSplit(boundary: string, parts: seq<Part>, texts: seq<string>)
    requires WroteAll(boundary, parts, texts) && parts != []
    ensures Fit(boundary, parts[0]) && Wrote(boundary, parts[0], texts[0])
    ensures WroteAll(boundary, parts[1..], texts[1..])
  {
    assert Peek(0);
    forall i: int {:trigger Peek(i)} | 0 <= i < |parts| - 1
      ensures Peek(i) && Fit(boundary, parts[1..][i]) && Wrote(boundary, parts[1..][i], texts[1..][i])
    {
      assert Peek(i + 1);
    }
  }

  /** Every part is followed by the end of its delimiter line. */
  lemma RestStarts(s: string, q: nat, boundary: string, parts: seq<Part>, texts: seq<string>)
    requires WroteAll(boundary, parts, texts) && Has(s, q, Joined(texts))
    ensures Has(s, q, CRLF) || Has(s, q, "--")
  {
    if texts != [] {
      WroteSplit(boundary, parts, texts);
      HasJoin(s, q, texts[0], Joined(texts[1..]));
      WroteStarts(s, q, boundary, parts[0], texts[0]);
    }
  }

  function KeptAll(parts: seq<Part>): seq<Item> {
    if parts == [] then [] else [Kept(parts[0])] + KeptAll(parts[1..])
  }

  /** Parts(s, boundary, rp) == f, kept folded. */
  ghost predicate FormIs(s: string, boundary: string, rp: nat, f: Form) {
    forall t: string :: Peek(t) && t == s ==> Parts(t, boundary, rp) == f
  }

  lemma FormStep(s: string, boundary: string, rp: nat, item: Item, next: nat, f: Form)
    requires NextIs(s, boundary, rp, Found(item, next)) && FormIs(s, boundary, next, f)
    ensures FormIs(s, boundary, rp, Form([item] + f.items, f.eof))
  {
    assert NextPart(s, boundary, rp) == Found(item, next) && Parts(s, boundary, next) == f by { assert Peek(s); }
  }

  lemma FormStops(s: string, boundary: string, rp: nat)
    requires Has(s, rp, "--") && Has(s, rp + 2, boundary) && Has(s, rp + 2 + |boundary|, "--")
    ensures FormIs(s, boundary, rp, Form([], true))
  {
    HasIsAt(s, rp, "--");
    HasIsAt(s, rp + 2, boundary);
    HasIsAt(s, rp + 2 + |boundary|, "--");
    assert NextPart(s, boundary, rp) == End;
  }

  lemma Follow(s: string, q: nat, a: string, b: string, r: nat)
    requires Has(s, q, a + b) && r == q + |a|
    ensures Has(s, q, a) && Has(s, r, b)
  {
    HasJoin(s, q, a, b);
  }

  /** The first part, and where the next one starts; q and r lie behind the delimiters at p and next. */
  lemma FirstPart(s: string, boundary: string, parts: seq<Part>, texts: seq<string>, p: nat, q: nat, next: nat, r: nat)
    requires WroteAll(boundary, parts, texts) && parts != []
    requires q == p + 2 + |boundary| && next == p + |texts[0]| && r == next + 2 + |boundary|
    requires Has(s, p, "--") && Has(s, p + 2, boundary) && Has(s, q, Joined(texts))
    ensures NextIs(s, boundary, p, Found(Kept(parts[0]), next)) && WroteAll(boundary, parts[1..], texts[1..])
    ensures Has(s, next, "--") && Has(s, next + 2, boundary) && Has(s, r, Joined(texts[1..]))
  {
    WroteSplit(boundary, parts, texts);
    Follow(s, q, texts[0], Joined(texts[1..]), r);
    RestStarts(s, r, boundary, parts[1..], texts[1..]);
    WroteRead(s, boundary, p, q, parts[0], texts[0], next, r);
  }

  lemma {:induction false} PartsRead(s: string, boundary: string, parts: seq<Part>, texts: seq<string>, p: nat, q: nat)
    requires WroteAll(boundary, parts, texts) && q == p + 2 + |boundary|
    requires Has(s, p, "--") && Has(s, p + 2, boundary) && Has(s, q, Joined(texts))
    ensures FormIs(s, boundary, p, Form(KeptAll(parts), true))
    decreases |parts|
  {
    if parts == [] {
      FormStops(s, boundary, p);
    } else {
      var next := p + |texts[0]|;
      var r := next + 2 + |boundary|;
      FirstPart(s, boundary, parts, texts, p, q, next, r);
      PartsRead(s, boundary, parts[1..], texts[1..], next, r);
      FormStep(s, boundary, p, Kept(parts[0]), next, Form(KeptAll(parts[1..]), true));
    }
  }

  /** Round trip: a form written with a boundary that holds no carriage return, from parts whose names hold
      no quote, backslash or line end and whose data is free of the delimiter, is read back part by part, and
      its end is recognised. */
  lemma FormRoundTrip(boundary: string, parts: seq<Part>, epilogue: string)
    requires '\r' !in boundary && (forall i :: 0 <= i < |parts| ==> GoodPart(boundary, parts[i]))
    ensures Parts(WriteForm(boundary, parts, epilogue), boundary, 0) == Form(KeptAll(parts), true)
  {
    var s, texts := WriteForm(boundary, parts, epilogue), Texts(boundary, parts);
    FormRead(s, boundary, parts, texts, epilogue);
    assert Peek(s);
  }

  lemma FormRead(s: string, boundary: string, parts: seq<Part>, texts: seq<string>, epilogue: string)
    requires '\r' !in boundary && (forall i :: 0 <= i < |parts| ==> GoodPart(boundary, parts[i]))
    requires |texts| == |parts| && (forall i :: 0 <= i < |parts| ==> Wrote(boundary, parts[i], texts[i]))
    requires s == "--" + boundary + Joined(texts) + epilogue
    ensures FormIs(s, boundary, 0, Form(KeptAll(parts), true))
  {
    HasIsAt(s, 0, s);
    Split4(s, 0, "--", boundary, Joined(texts), epilogue);
    PartsRead(s, boundary, parts, texts, 0, 2 + |boundary|);
  }
}
