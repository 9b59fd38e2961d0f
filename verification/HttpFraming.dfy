/** How the body of a request is framed: the tokeniser's reading of the headers against section 6.3 of RFC 9112. */
module HttpFraming {
  import opened HttpTables
  import opened Characters
  import opened TokenSpec
  import opened HttpMessage
  import opened HttpRequest

  // ------------------------------------------------------------------ the standard

  predicate Blank(c: char) {
    c == ' ' || c == '\t'
  }

  function Trim(t: string): string {
    if t == "" then ""
    else if Blank(t[0]) then Trim(t[1..])
    else if Blank(t[|t| - 1]) then Trim(t[..|t| - 1])
    else t
  }

  predicate Blanks(t: string) {
    forall i :: 0 <= i < |t| ==> t[i] == ' ' || t[i] == '\t'
  }

  /** Trimming takes away the blanks around a text, and nothing of a text that neither begins nor ends with one. */
  lemma {:induction false} TrimBlanks(a: string, t: string, b: string)
    requires Blanks(a) && Blanks(b) && t != "" && !Blanks(t[..1]) && !Blanks(t[|t| - 1..])
    ensures Trim(a + t + b) == t
    decreases |a| + |b|
  {
    var all := a + t + b;
    if a != "" {
      assert all[0] == a[0] && all[1..] == a[1..] + t + b;
      TrimBlanks(a[1..], t, b);
    } else if b != "" {
      var k := |b| - 1;
      assert all[0] == t[..1][0] && all[|all| - 1] == b[k] && all[..|all| - 1] == a + t + b[..k];
      TrimBlanks(a, t, b[..k]);
    } else {
      assert all == t && t[..1][0] == t[0] && t[|t| - 1..][0] == t[|t| - 1];
    }
  }

  /** A list member without the blanks around it; empty members do not count. */
  function Member(t: string): seq<string> {
    if Trim(t) == "" then [] else [Trim(t)]
  }

  /** The members of a comma-separated list, of whose first member `begun` was already read. */
  function Members(begun: string, rest: string): seq<string>
    decreases |rest|
  {
    if rest == "" then Member(begun)
    else if rest[0] == ',' then Member(begun) + Members("", rest[1..])
    else Members(begun + [rest[0]], rest[1..])
  }

  predicate Named(h: Header, name: string) {
    LowerAll(h.name) == name
  }

  predicate HasField(hs: seq<Header>, name: string) {
    hs != [] && (Named(hs[0], name) || HasField(hs[1..], name))
  }

  /** All fields of a name make up one list. */
  function FieldMembers(hs: seq<Header>, name: string): seq<string> {
    if hs == [] then []
    else (if Named(hs[0], name) then Members("", hs[0].value) else []) + FieldMembers(hs[1..], name)
  }

  predicate SameNumbers(ts: seq<string>) {
    && ts != [] && (forall i :: 0 <= i < |ts| ==> ts[i] != "" && Digits(ts[i]))
    && (forall i :: 0 <= i < |ts| ==> Decimal(ts[i]) == Decimal(ts[0]))
  }

  predicate EndsChunked(codings: seq<string>) {
    codings != [] && LowerAll(codings[|codings| - 1]) == CHUNKED
  }

  datatype Ruling = Ruled(f: Framing) | Invalid

  /** The rules of section 6.3 for a request: Transfer-Encoding goes before Content-Length and must end in
      "chunked"; several lengths must be the same number; without either there is no body. */
  function StandardFraming(hs: seq<Header>): Ruling {
    if HasField(hs, TRANSFER_ENCODING) then
      if EndsChunked(FieldMembers(hs, TRANSFER_ENCODING)) then Ruled(Chunked) else Invalid
    else if HasField(hs, CONTENT_LENGTH) then
      var ts := FieldMembers(hs, CONTENT_LENGTH);
      if SameNumbers(ts) then Ruled(Length(Decimal(ts[0]))) else Invalid
    else Ruled(NoBody)
  }

  // ------------------------------------------------------------------ values

  /** The tokeniser takes a value for "chunked" if it is a beginning of it. */
  lemma ChunkedLikeIsPrefix(value: string)
    requires forall i :: 0 <= i < |value| ==> FieldChar(value[i])
    ensures ChunkedLike(value) <==> LowerAll(value) <= CHUNKED
  {
    if |value| > |CHUNKED| {
      assert FieldChar(value[|CHUNKED|]);
      assert Lower(value[|CHUNKED|]) != ChunkedByte(|CHUNKED|);
    }
  }

  /** A transfer coding is classified as the standard does if and only if it is not a proper beginning of
      "chunked". */
  lemma ValuesClassifiedExactly(value: string)
    requires forall i :: 0 <= i < |value| ==> FieldChar(value[i])
    ensures (ChunkedLike(value) <==> LowerAll(value) == CHUNKED) <==> !(LowerAll(value) < CHUNKED)
  {
    ChunkedLikeIsPrefix(value);
  }

  // ------------------------------------------------------------------ agreement

  /** No header name is taken for a framing name that it is not. */
  predicate NamesKnown(hs: seq<Header>) {
    forall i :: 0 <= i < |hs| ==> !Mistaken(hs[i].name)
  }

  /** The first header that the tokeniser takes for the framing is a Transfer-Encoding. */
  predicate CodingDecides(hs: seq<Header>) {
    && hs != []
    && if Named(hs[0], TRANSFER_ENCODING) && LowerAll(hs[0].value) <= CHUNKED then true
       else if Named(hs[0], CONTENT_LENGTH) then false
       else CodingDecides(hs[1..])
  }

  lemma HeaderReads(h: Header)
    requires GoodHeader(h) && !Mistaken(h.name)
    ensures TeLike(h.name) <==> Named(h, TRANSFER_ENCODING)
    ensures !TeLike(h.name) ==> (ClLike(h.name) <==> Named(h, CONTENT_LENGTH))
    ensures ChunkedLike(h.value) <==> LowerAll(h.value) <= CHUNKED
  {
    NamesClassifiedExactly(h.name);
    ChunkedLikeIsPrefix(h.value);
  }

  lemma {:induction false} DecidedStays(f: Framing, hs: seq<Header>)
    requires !f.NoBody? && GoodHeaders(f, hs)
    ensures FrameAll(f, hs) == f
    decreases |hs|
  {
    if hs != [] {
      DecidedStays(f, hs[1..]);
    }
  }

  lemma NamesKnownTail(hs: seq<Header>)
    requires hs != [] && NamesKnown(hs)
    ensures !Mistaken(hs[0].name) && NamesKnown(hs[1..])
  {
    forall i | 0 <= i < |hs[1..]|
      ensures !Mistaken(hs[1..][i].name)
    {
      assert hs[1..][i] == hs[i + 1];
    }
  }

  lemma {:induction false} CodingDecidesIff(hs: seq<Header>)
    requires NamesKnown(hs) && GoodHeaders(NoBody, hs)
    ensures FrameAll(NoBody, hs) == Chunked <==> CodingDecides(hs)
    decreases |hs|
  {
    if hs != [] {
      NamesKnownTail(hs);
      HeaderReads(hs[0]);
      var f := Frame(NoBody, hs[0]);
      if f.NoBody? {
        CodingDecidesIff(hs[1..]);
      } else {
        DecidedStays(f, hs[1..]);
      }
    }
  }

  lemma {:induction false} DigitsTrim(t: string)
    requires Digits(t)
    ensures Trim(t) == t
  {
    if t != "" {
      assert IsDigit(t[0]) && IsDigit(t[|t| - 1]);
    }
  }

  lemma {:induction false} NoComma(begun: string, rest: string)
    requires forall i :: 0 <= i < |rest| ==> rest[i] != ','
    ensures Members(begun, rest) == Member(begun + rest)
    decreases |rest|
  {
    if rest == "" {
      assert begun + rest == begun;
    } else {
      NoComma(begun + [rest[0]], rest[1..]);
      assert begun + [rest[0]] + rest[1..] == begun + rest;
    }
  }

  lemma NumberIsOneMember(value: string)
    requires value != "" && Digits(value)
    ensures Members("", value) == [value]
  {
    forall i | 0 <= i < |value|
      ensures value[i] != ','
    {
      assert IsDigit(value[i]);
    }
    NoComma("", value);
    assert "" + value == value;
    DigitsTrim(value);
  }

  /** Without a Transfer-Encoding the first length counts. */
  lemma {:induction false} FirstLength(hs: seq<Header>)
    requires NamesKnown(hs) && GoodHeaders(NoBody, hs) && !HasField(hs, TRANSFER_ENCODING)
    ensures var ts := FieldMembers(hs, CONTENT_LENGTH);
      if HasField(hs, CONTENT_LENGTH) then
        ts != [] && Digits(ts[0]) && FrameAll(NoBody, hs) == Length(Decimal(ts[0]))
      else FrameAll(NoBody, hs) == NoBody
    decreases |hs|
  {
    if hs != [] {
      var h, rest := hs[0], hs[1..];
      NamesKnownTail(hs);
      HeaderReads(h);
      if Named(h, CONTENT_LENGTH) {
        NumberIsOneMember(h.value);
        DecidedStays(Frame(NoBody, h), rest);
        assert FieldMembers(hs, CONTENT_LENGTH)[0] == h.value;
      } else {
        FirstLength(rest);
        assert FieldMembers(hs, CONTENT_LENGTH) == FieldMembers(rest, CONTENT_LENGTH);
      }
    }
  }

  /** The tokeniser frames the body as the standard does if and only if the standard allows the message, and a
      Transfer-Encoding, if there is one, is the first header that the tokeniser takes for the framing. */
  lemma FramedAsStandardIff(hs: seq<Header>)
    requires NamesKnown(hs) && GoodHeaders(NoBody, hs)
    ensures StandardFraming(hs) == Ruled(FrameAll(NoBody, hs)) <==>
      StandardFraming(hs).Ruled? && (HasField(hs, TRANSFER_ENCODING) ==> CodingDecides(hs))
  {
    if HasField(hs, TRANSFER_ENCODING) {
      CodingDecidesIff(hs);
    } else {
      FirstLength(hs);
    }
  }

  /** Every Transfer-Encoding field is "chunked" and nothing else. */
  predicate PlainCodings(hs: seq<Header>) {
    forall i :: 0 <= i < |hs| && Named(hs[i], TRANSFER_ENCODING) ==> LowerAll(hs[i].value) == CHUNKED
  }

  /** A Content-Length comes before the first Transfer-Encoding. */
  predicate LengthFirst(hs: seq<Header>) {
    exists i, j ::
      && 0 <= i < j < |hs| && Named(hs[i], CONTENT_LENGTH) && Named(hs[j], TRANSFER_ENCODING)
      && forall k :: 0 <= k < j ==> !Named(hs[k], TRANSFER_ENCODING)
  }

  lemma {:induction false} FieldIndex(hs: seq<Header>, name: string) returns (j: nat)
    requires HasField(hs, name)
    ensures j < |hs| && Named(hs[j], name) && forall k :: 0 <= k < j ==> !Named(hs[k], name)
    decreases |hs|
  {
    if Named(hs[0], name) {
      j := 0;
    } else {
      var i := FieldIndex(hs[1..], name);
      j := i + 1;
      assert forall k :: 0 < k <= j ==> hs[k] == hs[1..][k - 1];
    }
  }

  lemma {:induction false} DecidesAt(hs: seq<Header>, j: nat)
    requires j < |hs| && Named(hs[j], TRANSFER_ENCODING) && LowerAll(hs[j].value) == CHUNKED
    requires forall k :: 0 <= k < j ==> !Named(hs[k], TRANSFER_ENCODING)
    ensures CodingDecides(hs) <==> forall k :: 0 <= k < j ==> !Named(hs[k], CONTENT_LENGTH)
    decreases |hs|
  {
    if j > 0 && !Named(hs[0], CONTENT_LENGTH) {
      var rest := hs[1..];
      assert forall k :: 0 <= k < |rest| ==> rest[k] == hs[k + 1];
      assert forall k :: 0 < k < |hs| ==> hs[k] == rest[k - 1];
      DecidesAt(rest, j - 1);
    }
  }

  /** Where every transfer coding is plainly "chunked" the order decides: the tokeniser frames an allowed message
      as the standard does if and only if no Content-Length comes before the first Transfer-Encoding. */
  lemma OrderDecides(hs: seq<Header>)
    requires NamesKnown(hs) && GoodHeaders(NoBody, hs) && PlainCodings(hs) && StandardFraming(hs).Ruled?
    ensures StandardFraming(hs) == Ruled(FrameAll(NoBody, hs)) <==> !LengthFirst(hs)
  {
    FramedAsStandardIff(hs);
    if HasField(hs, TRANSFER_ENCODING) {
      var j := FieldIndex(hs, TRANSFER_ENCODING);
      DecidesAt(hs, j);
      OneFirst(hs, j);
    } else {
      NoFieldNoIndex(hs);
    }
  }

  lemma OneFirst(hs: seq<Header>, j: nat)
    requires j < |hs| && Named(hs[j], TRANSFER_ENCODING)
    requires forall k :: 0 <= k < j ==> !Named(hs[k], TRANSFER_ENCODING)
    ensures LengthFirst(hs) <==> exists k :: 0 <= k < j && Named(hs[k], CONTENT_LENGTH)
  {
    if LengthFirst(hs) {
      var i, j2 :|
        && 0 <= i < j2 < |hs| && Named(hs[i], CONTENT_LENGTH) && Named(hs[j2], TRANSFER_ENCODING)
        && forall k :: 0 <= k < j2 ==> !Named(hs[k], TRANSFER_ENCODING);
      assert j2 == j;
    }
  }

  lemma {:induction false} NoFieldNoIndex(hs: seq<Header>)
    requires !HasField(hs, TRANSFER_ENCODING)
    ensures forall j :: 0 <= j < |hs| ==> !Named(hs[j], TRANSFER_ENCODING)
    decreases |hs|
  {
    if hs != [] {
      NoFieldNoIndex(hs[1..]);
      assert forall j :: 0 < j < |hs| ==> hs[j] == hs[1..][j - 1];
    }
  }

  /** A request whose body is written as the standard frames it gives exactly its tokens, if the tokeniser finds
      the framing where the standard does. */
  lemma StandardRequestTokens(cfg: Config, r: Request)
    requires GoodHead(cfg, r) && NamesKnown(r.headers)
    requires StandardFraming(r.headers).Ruled? && GoodBody(StandardFraming(r.headers).f, r.body)
    requires HasField(r.headers, TRANSFER_ENCODING) ==> CodingDecides(r.headers)
    ensures WellFormed(cfg, r) && Run(cfg, FRESH, Encode(r)) == Done(Tokens(cfg, r))
  {
    FramedAsStandardIff(r.headers);
    RequestTokens(cfg, r);
  }

  // ------------------------------------------------------------------ disagreement

  function Coding(value: string): Header {
    Header(TRANSFER_ENCODING, " ", value)
  }

  lemma CodingWord()
    ensures |TRANSFER_ENCODING| < INT16_MAX && TeLike(TRANSFER_ENCODING)
    ensures forall i :: 0 <= i < |TRANSFER_ENCODING| ==> NameChar(TRANSFER_ENCODING[i])
  {
  }

  lemma CodingName()
    ensures LowerAll(TRANSFER_ENCODING) == TRANSFER_ENCODING && !Mistaken(TRANSFER_ENCODING)
  {
    var n := LowerAll(TRANSFER_ENCODING);
    assert n == TRANSFER_ENCODING;
    assert n[0] == 't';
  }

  lemma CodingReads(value: string)
    requires value != "" && VisibleChar(value[0]) && forall i :: 0 <= i < |value| ==> FieldChar(value[i])
    ensures GoodHeader(Coding(value)) && Named(Coding(value), TRANSFER_ENCODING) && !Mistaken(TRANSFER_ENCODING)
    ensures TeLike(TRANSFER_ENCODING)
  {
    CodingWord();
    CodingName();
    var n := TRANSFER_ENCODING;
    PlainHeader(n, value);
  }

  lemma OneCoding(value: string)
    requires value != "" && VisibleChar(value[0]) && forall i :: 0 <= i < |value| ==> FieldChar(value[i])
    ensures var hs := [Coding(value)];
      && GoodHeaders(NoBody, hs) && NamesKnown(hs) && HasField(hs, TRANSFER_ENCODING)
      && FrameAll(NoBody, hs) == (if LowerAll(value) <= CHUNKED then Chunked else NoBody)
      && FieldMembers(hs, TRANSFER_ENCODING) == Members("", value)
  {
    CodingReads(value);
    ChunkedLikeIsPrefix(value);
    var hs := [Coding(value)];
    assert hs[1..] == [];
  }

  /** A coding "c" is invalid by the standard, and chunked for the tokeniser. */
  lemma PrefixCoding()
    ensures var hs := [Coding("c")];
      && NamesKnown(hs) && GoodHeaders(NoBody, hs)
      && StandardFraming(hs) == Invalid && FrameAll(NoBody, hs) == Chunked
  {
    OneCoding("c");
    NoComma("", "c");
    assert "" + "c" == "c";
    assert LowerAll("c") == "c" == CHUNKED[..1];
  }

  lemma ListMembers(a: string, b: string)
    requires forall i :: 0 <= i < |a| ==> a[i] != ','
    requires b != "" && (forall i :: 0 <= i < |b| ==> b[i] != ',' && !Blank(b[i])) && LowerAll(b) == CHUNKED
    ensures EndsChunked(Members("", a + "," + b))
  {
    TwoMembers("", a, b);
    LoneMember(b);
    var ms := Member("" + a) + [b];
    assert ms[|ms| - 1] == b;
  }

  lemma ListIsNoPrefix(a: string, v: string)
    requires a != "" && a <= v && Lower(a[0]) != 'c'
    ensures !(LowerAll(v) <= CHUNKED)
  {
    assert LowerAll(v)[0] == Lower(a[0]);
  }

  const GZIP := "gzip"
  const GZIP_CHUNKED := GZIP + "," + CHUNKED

  lemma GzipChunked()
    ensures forall i :: 0 <= i < |GZIP_CHUNKED| ==> FieldChar(GZIP_CHUNKED[i])
    ensures VisibleChar(GZIP_CHUNKED[0]) && GZIP <= GZIP_CHUNKED && Lower(GZIP[0]) != 'c'
    ensures forall i :: 0 <= i < |GZIP| ==> GZIP[i] != ','
    ensures (forall i :: 0 <= i < |CHUNKED| ==> CHUNKED[i] != ',' && !Blank(CHUNKED[i])) && LowerAll(CHUNKED) == CHUNKED
  {
  }

  /** The codings "gzip,chunked" are chunked by the standard, and no framing at all for the tokeniser. */
  lemma CodingList()
    ensures var hs := [Coding(GZIP_CHUNKED)];
      && NamesKnown(hs) && GoodHeaders(NoBody, hs)
      && StandardFraming(hs) == Ruled(Chunked) && FrameAll(NoBody, hs) == NoBody
  {
    GzipChunked();
    ListOutcome(GZIP, CHUNKED, GZIP_CHUNKED);
  }

  lemma ListOutcome(a: string, b: string, v: string)
    requires v == a + "," + b && a != "" && (forall i :: 0 <= i < |a| ==> a[i] != ',') && Lower(a[0]) != 'c'
    requires b != "" && (forall i :: 0 <= i < |b| ==> b[i] != ',' && !Blank(b[i])) && LowerAll(b) == CHUNKED
    requires (forall i :: 0 <= i < |v| ==> FieldChar(v[i])) && VisibleChar(v[0])
    ensures var hs := [Coding(v)];
      && NamesKnown(hs) && GoodHeaders(NoBody, hs)
      && StandardFraming(hs) == Ruled(Chunked) && FrameAll(NoBody, hs) == NoBody
  {
    OneCoding(v);
    ListIsNoPrefix(a, v);
    ListMembers(a, b);
  }

  lemma {:induction false} TwoMembers(begun: string, a: string, b: string)
    requires forall i :: 0 <= i < |a| ==> a[i] != ','
    ensures Members(begun, a + "," + b) == Member(begun + a) + Members("", b)
    decreases |a|
  {
    var v := a + "," + b;
    if a == "" {
      assert v[0] == ',' && v[1..] == b && begun + a == begun;
    } else {
      TwoMembers(begun + [a[0]], a[1..], b);
      assert v[0] == a[0] && v[1..] == a[1..] + "," + b && begun + [a[0]] + a[1..] == begun + a;
    }
  }

  lemma LengthThenCoding(a: Header, c: Header)
    requires GoodHeader(a) && GoodFraming(NoBody, a) && Frame(NoBody, a).Length? && !Mistaken(a.name)
    requires !Named(a, TRANSFER_ENCODING)
    requires GoodHeader(c) && Named(c, TRANSFER_ENCODING) && !Mistaken(c.name) && EndsChunked(Members("", c.value))
    ensures var hs := [a, c];
      && NamesKnown(hs) && GoodHeaders(NoBody, hs)
      && StandardFraming(hs) == Ruled(Chunked) && FrameAll(NoBody, hs) == Frame(NoBody, a)
  {
    assert [a, c][1..] == [c] && [c][1..] == [];
    CodingBehind(a, c);
    OneMore(Frame(NoBody, a), c);
  }

  lemma OneMore(f: Framing, c: Header)
    requires !f.NoBody? && GoodHeader(c)
    ensures GoodHeaders(f, [c]) && FrameAll(f, [c]) == f
  {
    assert [c][1..] == [];
    assert GoodHeaders(f, []);
    DecidedStays(f, [c]);
  }

  lemma CodingBehind(a: Header, c: Header)
    requires !Named(a, TRANSFER_ENCODING) && Named(c, TRANSFER_ENCODING)
    ensures HasField([a, c], TRANSFER_ENCODING)
    ensures FieldMembers([a, c], TRANSFER_ENCODING) == Members("", c.value)
  {
    assert [a, c][1..] == [c] && [c][1..] == [];
    assert FieldMembers([c], TRANSFER_ENCODING) == Members("", c.value);
  }

  lemma LengthName()
    ensures LowerAll(CONTENT_LENGTH) == CONTENT_LENGTH && !Mistaken(CONTENT_LENGTH)
  {
    var n := LowerAll(CONTENT_LENGTH);
    assert n == CONTENT_LENGTH;
    assert n[0] == 'c';
  }

  lemma ChunkedAlone()
    ensures EndsChunked(Members("", CHUNKED)) && VisibleChar(CHUNKED[0])
    ensures forall i :: 0 <= i < |CHUNKED| ==> FieldChar(CHUNKED[i])
  {
    GzipChunked();
    LoneMember(CHUNKED);
  }

  lemma LoneMember(b: string)
    requires b != "" && forall i :: 0 <= i < |b| ==> b[i] != ',' && !Blank(b[i])
    ensures Members("", b) == [b]
  {
    NoComma("", b);
    assert "" + b == b;
    assert Trim(b) == b;
  }

  /** A Content-Length in front of a Transfer-Encoding frames the body for the tokeniser. */
  lemma LengthBeforeCoding()
    ensures var hs := [NINE, Coding(CHUNKED)];
      && NamesKnown(hs) && GoodHeaders(NoBody, hs)
      && StandardFraming(hs) == Ruled(Chunked) && FrameAll(NoBody, hs) == Length(9)
  {
    NineIsALength();
    LengthName();
    ChunkedAlone();
    CodingReads(CHUNKED);
    assert NINE.name[0] == 'c';
    LengthThenCoding(NINE, Coding(CHUNKED));
  }
}
