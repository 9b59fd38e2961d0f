/** Whole requests: the tokens a well-formed request must give, for every way of cutting it into reads,
    and what the reverse proxy's header insertion does to them. */
module HttpRequest {
  import opened HttpTables
  import opened Characters
  import opened TokenSpec
  import opened HttpMessage
  import opened HttpChunks

  datatype Request = Request(verb: string, target: string, version: string, headers: seq<Header>, body: Body)

  datatype Body = Plain(text: string) | InChunks(chunks: seq<Chunk>, last: SizeLine)

  function EncodeHead(r: Request): string {
    RequestLine(r.verb, r.target, r.version) + EncodeHeaders(r.headers)
  }

  function EncodeBody(b: Body): string {
    match b
    case Plain(text) => text
    case InChunks(cs, last) => EncodeChunks(cs) + EncodeSizeLine(last) + "\r\n"
  }

  function Encode(r: Request): string {
    EncodeHead(r) + "\r\n" + EncodeBody(r.body)
  }

  /** The head is one the tokeniser accepts: a request line and at least one header, as many as allowed. */
  predicate GoodHead(cfg: Config, r: Request) {
    && GoodMethod(r.verb) && GoodTarget(r.target) && GoodVersion(r.version)
    && 0 < |r.headers| <= cfg.maxHeaders && |r.headers| < INT16_MAX && GoodHeaders(NoBody, r.headers)
    && |EncodeHead(r)| + 1 < cfg.bufMax
  }

  function FramingOf(r: Request): Framing
    requires GoodHeaders(NoBody, r.headers)
  {
    FrameAll(NoBody, r.headers)
  }

  /** The body is the one that the headers announce. */
  predicate GoodBody(f: Framing, b: Body) {
    match f
    case NoBody => b == Plain("")
    case Length(n) => b.Plain? && |b.text| == n
    case Chunked =>
      b.InChunks? && GoodSizeLine(b.last, 0) && forall i :: 0 <= i < |b.chunks| ==> GoodChunk(b.chunks[i])
  }

  predicate WellFormed(cfg: Config, r: Request) {
    GoodHead(cfg, r) && GoodBody(FramingOf(r), r.body)
  }

  function HeadTokens(r: Request): seq<Atom> {
    [Tok(T_METHOD, r.verb), Tok(T_TARGET, r.target), Tok(T_VERSION, r.version)] + AllHeaderAtoms(r.headers)
  }

  /** The body is kept whole when the buffer is thought to hold it. */
  predicate Whole(cfg: Config, r: Request) {
    r.body.Plain? && CanContain(cfg, |EncodeHead(r)| + 1, |r.body.text|)
  }

  function BodyTokensOf(cfg: Config, r: Request): seq<Atom> {
    match r.body
    case Plain(text) =>
      if Whole(cfg, r) then [Tok(T_BODY, text)]
      else [Tok(T_BODY_STREAM, "")] + Parts(text) + [Tok(T_CHUNK_BODY, "")]
    case InChunks(cs, _) => [Tok(T_BODY_STREAM, "")] + ChunkAtoms(cs) + [Tok(T_CHUNK_BODY, "")]
  }

  /** The tokens of a request. */
  function Tokens(cfg: Config, r: Request): seq<Atom> {
    HeadTokens(r) + BodyTokensOf(cfg, r) + [FINISH]
  }

  lemma HeadRun(cfg: Config, r: Request)
    requires GoodHead(cfg, r)
    ensures Leads(cfg, FRESH, EncodeHead(r), Between(HE, FramingOf(r), |r.headers|, |EncodeHead(r)|), HeadTokens(r))
    ensures FramingOf(r).Length? ==> FramingOf(r).n < INT_LIMIT
  {
    var line := RequestLine(r.verb, r.target, r.version);
    RequestLineTokens(cfg, r.verb, r.target, r.version);
    HeaderLines(cfg, RN, NoBody, 0, |line|, r.headers);
    LeadsSeq(cfg, FRESH, line, Between(RN, NoBody, 0, |line|),
             [Tok(T_METHOD, r.verb), Tok(T_TARGET, r.target), Tok(T_VERSION, r.version)], EncodeHeaders(r.headers),
             Between(HE, FramingOf(r), |r.headers|, |EncodeHead(r)|), AllHeaderAtoms(r.headers));
  }

  /** The body, from the state behind the blank line. */
  lemma BodyRun(cfg: Config, r: Request, l: Live) returns (o: seq<Atom>)
    requires WellFormed(cfg, r) && l == AtBodyStart(cfg, FramingOf(r), |r.headers|, |EncodeHead(r)| + 1)
    requires l.p.meta != M_END && LiveInv(l)
    ensures Finishes(cfg, l, EncodeBody(r.body), o) && HeadersEnd(l.p.meta) + o == BodyTokensOf(cfg, r) + [FINISH]
  {
    if FramingOf(r).Chunked? {
      o := ChunkAtoms(r.body.chunks) + [Tok(T_CHUNK_BODY, ""), FINISH];
      assert l == ChunkStart(HN, |r.headers|, |EncodeHead(r)| + 2);
      ChunkedFinishes(cfg, HN, |r.headers|, |EncodeHead(r)| + 2, r.body.chunks, r.body.last);
    } else {
      o := (if l.p.meta == M_STR then Parts(r.body.text) else [Tok(T_BODY, r.body.text)])
        + (if l.p.meta == M_STR then [Tok(T_CHUNK_BODY, ""), FINISH] else [FINISH]);
      LengthFinishes(cfg, l, r.body.text, o);
    }
    assert [Tok(T_BODY_STREAM, "")] + o == BodyTokensOf(cfg, r) + [FINISH] || o == BodyTokensOf(cfg, r) + [FINISH];
  }

  lemma LengthFinishes(cfg: Config, l: Live, text: string, o: seq<Atom>)
    requires LiveInv(l) && l.p.state == HN && (l.p.meta == M_STR || l.p.meta == M_BDY) && l.p.contentLength == |text|
    requires o == (if l.p.meta == M_STR then Parts(text) else [Tok(T_BODY, text)])
      + (if l.p.meta == M_STR then [Tok(T_CHUNK_BODY, ""), FINISH] else [FINISH])
    ensures Finishes(cfg, l, text, o)
  {
    BodyCompletes(cfg, l, BD, text);
    assert "" + text == text;
  }

  /** The blank line and the body, from the state between two headers. */
  lemma TailRun(cfg: Config, r: Request)
    requires WellFormed(cfg, r)
    ensures Finishes(cfg, Between(HE, FramingOf(r), |r.headers|, |EncodeHead(r)|), "\r\n" + EncodeBody(r.body),
                     BodyTokensOf(cfg, r) + [FINISH])
  {
    HeadRun(cfg, r);
    var f, count, pos := FramingOf(r), |r.headers|, |EncodeHead(r)|;
    var s, l := Between(HE, f, count, pos), AtBodyStart(cfg, f, count, pos + 1);
    LeadsIs(cfg, FRESH, EncodeHead(r), s, HeadTokens(r));
    BlankLine(cfg, f, count, pos);
    if BodyMeta(cfg, f, pos + 1) == M_END {
      assert "\r\n" + EncodeBody(r.body) == "\r\n";
      assert BodyTokensOf(cfg, r) + [FINISH] == [Tok(T_BODY, ""), FINISH];
    } else {
      LeadsIs(cfg, s, "\r\n", l, HeadersEnd(l.p.meta));
      var o := BodyRun(cfg, r, l);
      FinishesSeq(cfg, s, "\r\n", l, HeadersEnd(l.p.meta), EncodeBody(r.body), o);
    }
  }

  /** A well-formed request gives exactly its tokens. */
  lemma RequestTokens(cfg: Config, r: Request)
    requires WellFormed(cfg, r)
    ensures Run(cfg, FRESH, Encode(r)) == Done(Tokens(cfg, r))
  {
    HeadRun(cfg, r);
    TailRun(cfg, r);
    HeadThenTail(cfg, r, EncodeHead(r), "\r\n" + EncodeBody(r.body),
                 Between(HE, FramingOf(r), |r.headers|, |EncodeHead(r)|), HeadTokens(r),
                     BodyTokensOf(cfg, r) + [FINISH]);
  }

  lemma HeadThenTail(cfg: Config, r: Request, head: string, tail: string, s: Live, o: seq<Atom>, o2: seq<Atom>)
    requires Leads(cfg, FRESH, head, s, o) && Finishes(cfg, s, tail, o2)
    requires head == EncodeHead(r) && tail == "\r\n" + EncodeBody(r.body)
    requires o == HeadTokens(r) && o2 == BodyTokensOf(cfg, r) + [FINISH]
    ensures Run(cfg, FRESH, Encode(r)) == Done(Tokens(cfg, r))
  {
    FinishesSeq(cfg, FRESH, head, s, o, tail, o2);
    FinishesIs(cfg, FRESH, head + tail, o + o2);
    assert Encode(r) == head + tail;
    assert o + o2 == Tokens(cfg, r);
  }

  // ------------------------------------------------------------------ any division into reads

  predicate ShortHeaders(cfg: Config, hs: seq<Header>) {
    forall i :: 0 <= i < |hs| ==> |hs[i].name| <= cfg.tokenMax && |hs[i].value| <= cfg.tokenMax
  }

  /** Every part of the head is within request_token_max_len. */
  predicate ShortHead(cfg: Config, r: Request) {
    |r.verb| <= cfg.tokenMax && |r.target| <= cfg.tokenMax && |r.version| <= cfg.tokenMax
        && ShortHeaders(cfg, r.headers)
  }

  lemma {:induction false} ShortHeaderAtoms(cfg: Config, hs: seq<Header>)
    ensures Short(cfg, AllHeaderAtoms(hs)) <==> ShortHeaders(cfg, hs)
    decreases |hs|
  {
    if hs != [] {
      var h, rest := hs[0], hs[1..];
      ShortHeaderAtoms(cfg, rest);
      ShortJoin(cfg, HeaderAtoms(h), AllHeaderAtoms(rest));
      assert HeaderAtoms(h)[0] in HeaderAtoms(h) && HeaderAtoms(h)[1] in HeaderAtoms(h);
      assert forall i :: 0 < i < |hs| ==> hs[i] == rest[i - 1];
      if ShortHeaders(cfg, hs) {
        assert forall i :: 0 <= i < |rest| ==> rest[i] == hs[i + 1];
      }
    }
  }

  lemma {:induction false} ChunkAtomsShort(cfg: Config, cs: seq<Chunk>)
    ensures Short(cfg, ChunkAtoms(cs))
    decreases |cs|
  {
    if cs != [] {
      ChunkAtomsShort(cfg, cs[1..]);
      ShortJoin(cfg, [Tok(T_CHUNK_BODY, cs[0].data)], ChunkAtoms(cs[1..]));
    }
  }

  lemma BodyTokensShort(cfg: Config, r: Request)
    ensures Short(cfg, BodyTokensOf(cfg, r) + [FINISH])
  {
    if r.body.InChunks? {
      var mid := ChunkAtoms(r.body.chunks);
      ChunkAtomsShort(cfg, r.body.chunks);
      ShortJoin(cfg, [Tok(T_BODY_STREAM, "")], mid);
      ShortJoin(cfg, [Tok(T_BODY_STREAM, "")] + mid, [Tok(T_CHUNK_BODY, "")]);
    } else {
      ShortJoin(cfg, [Tok(T_BODY_STREAM, "")], Parts(r.body.text));
      ShortJoin(cfg, [Tok(T_BODY_STREAM, "")] + Parts(r.body.text), [Tok(T_CHUNK_BODY, "")]);
    }
    ShortJoin(cfg, BodyTokensOf(cfg, r), [FINISH]);
  }

  lemma TokensShort(cfg: Config, r: Request)
    ensures Short(cfg, Tokens(cfg, r)) <==> ShortHead(cfg, r)
  {
    var line := [Tok(T_METHOD, r.verb), Tok(T_TARGET, r.target), Tok(T_VERSION, r.version)];
    BodyTokensShort(cfg, r);
    ShortHeaderAtoms(cfg, r.headers);
    ShortJoin(cfg, line, AllHeaderAtoms(r.headers));
    ShortJoin(cfg, HeadTokens(r), BodyTokensOf(cfg, r) + [FINISH]);
    assert Tokens(cfg, r) == HeadTokens(r) + (BodyTokensOf(cfg, r) + [FINISH]);
    assert line[0] in line && line[1] in line && line[2] in line;
  }

  /** Read-split invariance for well-formed requests: every way of cutting the request into reads gives
      exactly its tokens, if and only if every part of its head is within request_token_max_len. */
  lemma RequestReadSplit(cfg: Config, r: Request)
    requires WellFormed(cfg, r)
    ensures (forall pieces :: Flatten(pieces) == Encode(r) ==> Session(cfg, FRESH, pieces) == Done(Tokens(cfg, r)))
       <==> ShortHead(cfg, r)
  {
    RequestTokens(cfg, r);
    TokensShort(cfg, r);
    MessageSplitInvariance(cfg, Encode(r));
  }

  // ------------------------------------------------------------------ bodies that are kept whole

  /** The head and the blank line lead to the body. */
  lemma HeadAndBlankLine(cfg: Config, r: Request, l: Live)
    requires GoodHead(cfg, r) && l == AtBodyStart(cfg, FramingOf(r), |r.headers|, |EncodeHead(r)| + 1)
    requires l.p.meta != M_END
    ensures Leads(cfg, FRESH, EncodeHead(r) + "\r\n", l, HeadTokens(r) + HeadersEnd(l.p.meta))
  {
    var head, f, count := EncodeHead(r), FramingOf(r), |r.headers|;
    var s := Between(HE, f, count, |head|);
    HeadRun(cfg, r);
    LeadsIs(cfg, FRESH, head, s, HeadTokens(r));
    BlankLine(cfg, f, count, |head|);
    LeadsSeq(cfg, FRESH, head, s, HeadTokens(r), "\r\n", l, HeadersEnd(l.p.meta));
  }

  /** Part of a body of known length. */
  lemma PartOfBody(cfg: Config, head: string, l: Live, o: seq<Atom>, text: string)
    requires Leads(cfg, FRESH, head, l, o) && AtBody(l, BD) && |text| < BodyLeft(l)
    ensures Run(cfg, FRESH, head + text).Go? && Run(cfg, FRESH, head + text).out == o + Streamed(l, text)
    ensures var n := Run(cfg, FRESH, head + text).s;
      n.p.meta == l.p.meta && n.pos == l.pos && n.p.state == if text == "" then l.p.state else BD
  {
    LeadsIs(cfg, FRESH, head, l, o);
    RunGo(cfg, FRESH, head, text);
    if text == "" {
      assert Streamed(l, text) == [];
    } else {
      BodyGrows(cfg, l, BD, text);
    }
  }

  lemma WholeBodyWaits(cfg: Config, r: Request, n: nat)
    requires WellFormed(cfg, r) && Whole(cfg, r) && FramingOf(r).Length? && r.body.text != ""
    requires |EncodeHead(r)| + 2 <= n < |Encode(r)|
    ensures Run(cfg, FRESH, Encode(r)[..n]).Go? && Run(cfg, FRESH, Encode(r)[..n]).out == HeadTokens(r)
  {
    var head, k := EncodeHead(r) + "\r\n", n - |EncodeHead(r)| - 2;
    var l := AtBodyStart(cfg, FramingOf(r), |r.headers|, |EncodeHead(r)| + 1);
    HeadAndBlankLine(cfg, r, l);
    PartOfBody(cfg, head, l, HeadTokens(r) + HeadersEnd(l.p.meta), r.body.text[..k]);
    assert Encode(r)[..n] == head + r.body.text[..k];
    assert HeadTokens(r) + [] + [] == HeadTokens(r);
  }

  /** A body that is kept whole is delivered from what the buffer can hold if and only if the whole message
      fits.  The test made at the end of the headers admits two bytes more than that. */
  lemma WholeBodyDelivery(cfg: Config, r: Request)
    requires WellFormed(cfg, r) && Whole(cfg, r) && FramingOf(r).Length? && r.body.text != ""
    ensures |Encode(r)| <= cfg.bufMax + 2
    ensures (exists n ::
               |EncodeHead(r)| + 2 <= n <= |Encode(r)| && n <= cfg.bufMax && Run(cfg, FRESH, Encode(r)[..n]).Done?)
       <==> |Encode(r)| <= cfg.bufMax
  {
    RequestTokens(cfg, r);
    var m := |Encode(r)|;
    assert Encode(r)[..m] == Encode(r);
    forall n | |EncodeHead(r)| + 2 <= n < m
      ensures !Run(cfg, FRESH, Encode(r)[..n]).Done?
    {
      WholeBodyWaits(cfg, r, n);
    }
  }

  const NINE := Header(CONTENT_LENGTH, " ", "9")

  lemma NineIsALength()
    ensures GoodHeader(NINE) && GoodFraming(NoBody, NINE) && Frame(NoBody, NINE) == Length(9)
      && |EncodeHeader(NINE)| == 19
  {
    LengthWord();
    PlainHeader(CONTENT_LENGTH, "9");
    assert Digits("9") && "9"[..0] == "";
    assert Decimal("9") == 9;
  }

  lemma LengthWord()
    ensures |CONTENT_LENGTH| == 14 && ClLike(CONTENT_LENGTH) && !TeLike(CONTENT_LENGTH)
    ensures forall i :: 0 <= i < |CONTENT_LENGTH| ==> NameChar(CONTENT_LENGTH[i])
  {
    assert Lower(CONTENT_LENGTH[0]) != TeByte(0);
  }

  lemma PlainHeader(name: string, value: string)
    requires 0 < |name| < INT16_MAX && forall i :: 0 <= i < |name| ==> NameChar(name[i])
    requires value != "" && VisibleChar(value[0]) && forall i :: 0 <= i < |value| ==> FieldChar(value[i])
    ensures GoodHeader(Header(name, " ", value))
  {
  }

  /** The gap is inhabited: a request whose nine-byte body is announced as kept whole by a buffer of 35
      bytes, while the message has 37. */
  lemma WholeBodyGap() returns (cfg: Config, r: Request)
    ensures WellFormed(cfg, r) && Whole(cfg, r) && FramingOf(r).Length? && r.body.text != "" && |Encode(r)| > cfg.bufMax
  {
    cfg := Config(35, 1, 8191);
    r := Request("G", "/", "V", [NINE], Plain("123456789"));
    NineIsALength();
    assert [NINE][1..] == [];
    assert GoodHeaders(Length(9), []) && FrameAll(Length(9), []) == Length(9);
    assert GoodHeaders(NoBody, [NINE]) && FrameAll(NoBody, [NINE]) == Length(9);
    assert |EncodeHeaders([NINE])| == 19;
  }

  // ------------------------------------------------------------------ framing names

  function LowerAll(text: string): (r: string)
    ensures |r| == |text| && forall i :: 0 <= i < |text| ==> r[i] == Lower(text[i])
  {
    seq(|text|, i requires 0 <= i < |text| => Lower(text[i]))
  }

  datatype NameClass = IsTe | IsCl | Other

  /** How the tokeniser classifies a header name. */
  function ClassOf(name: string): NameClass {
    if TeLike(name) then IsTe else if ClLike(name) then IsCl else Other
  }

  /** How section 6.3 of RFC 9112 classifies it. */
  function ExactClass(name: string): NameClass {
    if LowerAll(name) == TRANSFER_ENCODING then IsTe
    else if LowerAll(name) == CONTENT_LENGTH then IsCl
    else Other
  }

  /** The names taken for a framing name that they are not: proper prefixes of either name, and
      "content-length" continued with the last letters of "transfer-encoding". */
  predicate Mistaken(name: string) {
    var n := LowerAll(name);
    || n < TRANSFER_ENCODING
    || n < CONTENT_LENGTH
    || n == "content-lengthi" || n == "content-lengthin" || n == "content-lengthing"
  }

  lemma TeLikeIsPrefix(name: string)
    requires forall i :: 0 <= i < |name| ==> NameChar(name[i])
    ensures TeLike(name) <==> LowerAll(name) <= TRANSFER_ENCODING
  {
    if |name| > |TRANSFER_ENCODING| {
      assert NameChar(name[|TRANSFER_ENCODING|]);
      assert Lower(name[|TRANSFER_ENCODING|]) != TeByte(|TRANSFER_ENCODING|);
    }
  }

  const CONTENT_LENGTHING := "content-lengthing"

  lemma ClLikeIsPrefix(name: string)
    requires forall i :: 0 <= i < |name| ==> NameChar(name[i])
    ensures ClLike(name) <==> LowerAll(name) <= CONTENT_LENGTHING
  {
    assert forall k :: 0 <= k < |CONTENT_LENGTHING| ==> ClByte(k) == CONTENT_LENGTHING[k];
    if |name| > |CONTENT_LENGTHING| {
      assert NameChar(name[|CONTENT_LENGTHING|]);
      assert Lower(name[|CONTENT_LENGTHING|]) != ClByte(|CONTENT_LENGTHING|);
    }
  }

  /** The tokeniser classifies a header name as the standard does if and only if the name is not one of
      the mistaken ones. */
  lemma NamesClassifiedExactly(name: string)
    requires name != "" && forall i :: 0 <= i < |name| ==> NameChar(name[i])
    ensures ClassOf(name) == ExactClass(name) <==> !Mistaken(name)
  {
    TeLikeIsPrefix(name);
    ClLikeIsPrefix(name);
    var n := LowerAll(name);
    assert CONTENT_LENGTHING[..14] == CONTENT_LENGTH;
    assert CONTENT_LENGTHING[..15] == "content-lengthi" && CONTENT_LENGTHING[..16] == "content-lengthin";
    assert n <= CONTENT_LENGTHING ==> n == CONTENT_LENGTHING[..|n|];
    assert n <= TRANSFER_ENCODING ==> n[0] == 't';
    assert n <= CONTENT_LENGTHING ==> n[0] == 'c';
  }

  // ------------------------------------------------------------------ header insertion by the proxy

  /** A header that the application adds to the proxied request. */
  datatype Extra = Extra(key: string, val: string)

  /** The header lines in the order in which they end up: last registered first. */
  function Inserted(extra: seq<Extra>): seq<Header> {
    if extra == [] then [] else Inserted(extra[1..]) + [Header(extra[0].key, " ", extra[0].val)]
  }

  /** The extra header that was registered i-th from the end becomes the i-th line. */
  lemma {:induction false} InsertedAt(extra: seq<Extra>, i: nat)
    requires i < |extra|
    ensures |Inserted(extra)| == |extra|
    ensures var x := extra[|extra| - 1 - i]; Inserted(extra)[i] == Header(x.key, " ", x.val)
    decreases |extra|
  {
    if |extra| > 1 {
      InsertedAt(extra[1..], if i < |extra| - 1 then i else 0);
    }
  }

  lemma {:induction false} InsertedSnoc(extra: seq<Extra>, p: Extra)
    ensures Inserted(extra + [p]) == [Header(p.key, " ", p.val)] + Inserted(extra)
    decreases |extra|
  {
    if extra == [] {
      assert extra + [p] == [p];
    } else {
      assert (extra + [p])[1..] == extra[1..] + [p];
      InsertedSnoc(extra[1..], p);
    }
  }

  lemma {:induction false} EncodeHeadersJoin(a: seq<Header>, b: seq<Header>)
    ensures EncodeHeaders(a + b) == EncodeHeaders(a) + EncodeHeaders(b)
    ensures AllHeaderAtoms(a + b) == AllHeaderAtoms(a) + AllHeaderAtoms(b)
    decreases |a|
  {
    if a == [] {
      assert a + b == b;
    } else {
      assert (a + b)[1..] == a[1..] + b;
      EncodeHeadersJoin(a[1..], b);
      assert EncodeHeader(a[0]) + (EncodeHeaders(a[1..]) + EncodeHeaders(b)) == EncodeHeaders(a) + EncodeHeaders(b);
      assert HeaderAtoms(a[0]) + (AllHeaderAtoms(a[1..]) + AllHeaderAtoms(b)) == AllHeaderAtoms(a) + AllHeaderAtoms(b);
    }
  }

  /** The extra headers are inserted one after the other at the same offset, just before the line feed
      at `index` that ends the header section and the carriage return in front of it. */
  method InsertHeaders(buf: string, index: nat, extra: seq<Extra>) returns (out: string)
    requires 0 < index <= |buf|
    ensures out == buf[..index - 1] + EncodeHeaders(Inserted(extra)) + buf[index - 1..]
  {
    out := buf;
    var at := index - 1;
    var k := 0;
    assert extra[..0] == [];
    while k < |extra|
      invariant 0 <= k <= |extra|
      invariant out == buf[..at] + EncodeHeaders(Inserted(extra[..k])) + buf[at..]
    {
      var p := extra[k];
      var line := p.key + ": " + p.val + "\r\n";
      ghost var h := Header(p.key, " ", p.val);
      InsertedSnoc(extra[..k], p);
      assert extra[..k + 1] == extra[..k] + [p];
      EncodeHeadersJoin([h], Inserted(extra[..k]));
      assert line == EncodeHeaders([h]);
      assert out[..at] == buf[..at] && out[at..] == EncodeHeaders(Inserted(extra[..k])) + buf[at..];
      out := out[..at] + line + out[at..];
      k := k + 1;
    }
    assert extra[..k] == extra;
  }

  /** When the tokeniser is about to leave the header section, `index - 1` is the end of the last header. */
  lemma InsertionPoint(cfg: Config, r: Request)
    requires GoodHead(cfg, r)
    ensures Run(cfg, FRESH, EncodeHead(r) + "\r").Go?
    ensures var l := Run(cfg, FRESH, EncodeHead(r) + "\r").s;
      l.p.state == ER && Next(ER, CType('\n')) == HN && l.pos - 1 == |EncodeHead(r)|
  {
    var f, count, pos := FramingOf(r), |r.headers|, |EncodeHead(r)|;
    HeadRun(cfg, r);
    LeadsIs(cfg, FRESH, EncodeHead(r), Between(HE, f, count, pos), HeadTokens(r));
    BlankLineCr(cfg, f, count, pos);
    RunOne(cfg, Between(HE, f, count, pos), '\r');
    RunGo(cfg, FRESH, EncodeHead(r), "\r");
  }

  predicate Neutral(f: Framing, hs: seq<Header>) {
    && (forall i :: 0 <= i < |hs| ==> GoodHeader(hs[i]))
    && (f.NoBody? ==> forall i :: 0 <= i < |hs| ==> ClassOf(hs[i].name) == Other)
  }

  lemma {:induction false} NeutralFrame(f: Framing, hs: seq<Header>)
    requires Neutral(f, hs)
    ensures GoodHeaders(f, hs) && FrameAll(f, hs) == f
    decreases |hs|
  {
    if hs != [] {
      NeutralFrame(f, hs[1..]);
    }
  }

  lemma {:induction false} FrameJoin(f: Framing, a: seq<Header>, b: seq<Header>)
    requires GoodHeaders(f, a) && GoodHeaders(FrameAll(f, a), b)
    ensures GoodHeaders(f, a + b) && FrameAll(f, a + b) == FrameAll(FrameAll(f, a), b)
    decreases |a|
  {
    if a == [] {
      assert a + b == b;
    } else {
      assert (a + b)[0] == a[0] && (a + b)[1..] == a[1..] + b;
      FrameJoin(Frame(f, a[0]), a[1..], b);
    }
  }

  /** Header insertion preserves the message: the rewritten buffer is a well-formed request with the same
      request line and body, whose tokens are the original ones with the extra headers after the original
      headers, the last registered first. */
  lemma InsertionPreservesMessage(cfg: Config, endpoint: Config, r: Request, extra: seq<Extra>)
    requires WellFormed(cfg, r) && Neutral(FramingOf(r), Inserted(extra))
    requires |r.headers + Inserted(extra)| <= endpoint.maxHeaders && |r.headers + Inserted(extra)| < INT16_MAX
    requires |EncodeHead(r)| + |EncodeHeaders(Inserted(extra))| + 1 < endpoint.bufMax
    ensures var at, r2 := |EncodeHead(r)|, r.(headers := r.headers + Inserted(extra));
      && Encode(r)[..at] + EncodeHeaders(Inserted(extra)) + Encode(r)[at..] == Encode(r2)
      && WellFormed(endpoint, r2) && FramingOf(r2) == FramingOf(r)
      && HeadTokens(r2) == HeadTokens(r) + AllHeaderAtoms(Inserted(extra))
      && Run(endpoint, FRESH, Encode(r2)) == Done(Tokens(endpoint, r2))
  {
    InsertionText(r, Inserted(extra));
    InsertionTokens(cfg, endpoint, r, Inserted(extra));
  }

  lemma InsertionTokens(cfg: Config, endpoint: Config, r: Request, ins: seq<Header>)
    requires WellFormed(cfg, r) && Neutral(FramingOf(r), ins)
    requires |r.headers + ins| <= endpoint.maxHeaders && |r.headers + ins| < INT16_MAX
    requires |EncodeHead(r)| + |EncodeHeaders(ins)| + 1 < endpoint.bufMax
    ensures var r2 := r.(headers := r.headers + ins);
      && WellFormed(endpoint, r2) && FramingOf(r2) == FramingOf(r)
      && HeadTokens(r2) == HeadTokens(r) + AllHeaderAtoms(ins)
      && Run(endpoint, FRESH, Encode(r2)) == Done(Tokens(endpoint, r2))
  {
    var r2 := r.(headers := r.headers + ins);
    EncodeHeadersJoin(r.headers, ins);
    NeutralFrame(FramingOf(r), ins);
    FrameJoin(NoBody, r.headers, ins);
    assert |EncodeHead(r2)| == |EncodeHead(r)| + |EncodeHeaders(ins)|;
    assert HeadTokens(r2) == HeadTokens(r) + AllHeaderAtoms(ins);
    RequestTokens(endpoint, r2);
  }

  lemma InsertionText(r: Request, ins: seq<Header>)
    ensures var at, r2 := |EncodeHead(r)|, r.(headers := r.headers + ins);
      && EncodeHead(r2) == EncodeHead(r) + EncodeHeaders(ins)
      && Encode(r)[..at] + EncodeHeaders(ins) + Encode(r)[at..] == Encode(r2)
  {
    EncodeHeadersJoin(r.headers, ins);
    Assoc(RequestLine(r.verb, r.target, r.version), EncodeHeaders(r.headers), EncodeHeaders(ins));
    Cut(EncodeHead(r), "\r\n", EncodeBody(r.body), EncodeHeaders(ins));
  }

  lemma Assoc(a: string, b: string, c: string)
    ensures a + (b + c) == a + b + c
  {
  }

  lemma Cut(head: string, blank: string, body: string, ins: string)
    ensures var m := head + blank + body; m[..|head|] + ins + m[|head|..] == head + ins + blank + body
  {
    var m := head + blank + body;
    assert m[..|head|] == head && m[|head|..] == blank + body;
  }
}
