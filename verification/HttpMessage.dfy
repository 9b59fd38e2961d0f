/** Well-formed requests and the tokens they must produce: the grammar of sections 3, 5, 6.3 and 7.1
    of RFC 9112 as far as the tokeniser implements it, and the proof that it does. */
module HttpMessage {
  import opened Folding
  import opened HttpTables
  import opened Characters
  import opened TokenSpec

  // ------------------------------------------------------------------ single steps

  lemma StepTo(cfg: Config, s: Live, c: char, to: State)
    requires LiveInv(s) && Move(s.p.state, s.p.meta, CType(c)) == to && to != CB && to != BD
    requires !Refused(cfg, s, to) && Assumed(cfg, s, c, to)
    ensures Edge(s.p.state, s.p.meta, to)
    ensures var l := HeadLive(cfg, s, c, to);
      if l.p.meta == M_END then Step(cfg, s, c) == Done(HeadAtoms(s, to, l.p.meta) + [FINISH])
      else LiveInv(l) && Step(cfg, s, c) == Go(l, HeadAtoms(s, to, l.p.meta))
  {
    JointStep(s.p.state, s.p.meta, CType(c), Observe(cfg, s, c, to));
    HeadKeepsInv(cfg, s, c, to);
  }

  lemma RunGo(cfg: Config, s: Live, a: string, b: string)
    requires LiveInv(s) && Run(cfg, s, a).Go?
    ensures LiveInv(Run(cfg, s, a).s)
    ensures Run(cfg, s, a + b) == Prefix(Run(cfg, s, a).out, Run(cfg, Run(cfg, s, a).s, b))
  {
    RunSplit(cfg, s, a, b);
  }

  lemma PlainStep(cfg: Config, s: Live, c: char)
    requires LiveInv(s) && (s.p.state == MT || s.p.state == TR || s.p.state == VN)
      && s.p.matchIndex == s.p.headerCount == 0
    requires Next(s.p.state, CType(c)) == s.p.state
    ensures Step(cfg, s, c) == Go(s.(text := s.text + [c], pos := s.pos + 1), [])
  {
    StepTo(cfg, s, c, s.p.state);
  }

  /** A token whose characters keep the state grows by them. */
  lemma {:induction false} PlainRun(cfg: Config, s: Live, text: string)
    requires LiveInv(s) && (s.p.state == MT || s.p.state == TR || s.p.state == VN)
      && s.p.matchIndex == s.p.headerCount == 0
    requires forall i :: 0 <= i < |text| ==> Next(s.p.state, CType(text[i])) == s.p.state
    ensures Run(cfg, s, text) == Go(s.(text := s.text + text, pos := s.pos + |text|), [])
    decreases |text|
  {
    if text == "" {
      assert s.text + text == s.text;
    } else {
      var n := |text| - 1;
      var a, c := text[..n], text[n];
      assert text == a + [c];
      PlainRun(cfg, s, a);
      RunGo(cfg, s, a, [c]);
      var l := Run(cfg, s, a).s;
      RunOne(cfg, l, c);
      PlainStep(cfg, l, c);
      assert s.text + a + [c] == s.text + text;
    }
  }

  // ------------------------------------------------------------------ header names

  /** Every byte of the name, in lower case, is the one the first comparison expects. */
  predicate TeLike(name: string) {
    forall i :: 0 <= i < |name| ==> Lower(name[i]) == TeByte(i)
  }

  /** Likewise for the second comparison. */
  predicate ClLike(name: string) {
    forall i :: 0 <= i < |name| ==> Lower(name[i]) == ClByte(i)
  }

  /** The meta state after a non-empty header name, from the meta state before it. */
  function NameMeta(m: Meta, name: string): Meta {
    if m != M_ANY then m
    else if TeLike(name) then M_MTE
    else if ClLike(name) then M_MCL
    else M_WFK
  }

  /** One more byte of a name, with the comparisons of that byte made at position |name|. */
  lemma NameMetaSnoc(m: Meta, name: string, c: char, o: Seen)
    requires m == M_ANY || m == M_SML || m == M_CHK
    requires o.notTe == (Lower(c) != TeByte(|name|)) && o.notCl == (Lower(c) != ClByte(|name|))
    ensures name != "" ==> NameMeta(m, name + [c]) == SwitchMeta(NameMeta(m, name), HK, o)
    ensures name == "" ==> (o.notTe || o.notCl) && NameMeta(m, name + [c]) == SwitchMeta(m, HK, o)
  {
    var n := name + [c];
    assert forall i :: 0 <= i < |name| ==> n[i] == name[i];
    assert n[|name|] == c;
    assert TeLike(n) <==> TeLike(name) && !o.notTe;
    assert ClLike(n) <==> ClLike(name) && !o.notCl;
    if name != "" && TeLike(name) {
      assert Lower(name[0]) == 't' && !ClLike(name) by {
        assert Lower(name[0]) == TeByte(0) && ClByte(0) == 'c';
      }
    }
  }

  /** The reading state inside a header name of which `name` has been read. */
  predicate InName(l: Live, s: Live, name: string) {
    && l == Live(Parser(s.p.contentLength, 0, |name|, s.p.headerCount + 1, HK, NameMeta(s.p.meta, name)), T_HEADER_KEY,
      name, s.pos + |name|)
  }

  /** Between header lines: nothing is being read. */
  predicate BeforeHeader(cfg: Config, s: Live) {
    LiveInv(s) && (s.p.state == RN || s.p.state == HE) && s.p.matchIndex == 0 && s.p.headerCount < cfg.maxHeaders
        && s.p.headerCount < INT16_MAX - 1
  }

  lemma NameStart(cfg: Config, s: Live, c: char)
    requires BeforeHeader(cfg, s) && Word(CType(c))
    ensures Step(cfg, s, c).Go? && Step(cfg, s, c).out == [] && InName(Step(cfg, s, c).s, s, [c])
  {
    StepTo(cfg, s, c, HK);
    NameMetaSnoc(s.p.meta, "", c, Observe(cfg, s, c, HK));
    assert "" + [c] == [c];
  }

  lemma NameStep(cfg: Config, s: Live, l: Live, name: string, c: char)
    requires BeforeHeader(cfg, s) && LiveInv(l) && name != "" && InName(l, s, name) && Word(CType(c))
      && |name| < INT16_MAX
    ensures Step(cfg, l, c).Go? && Step(cfg, l, c).out == [] && InName(Step(cfg, l, c).s, s, name + [c])
  {
    StepTo(cfg, l, c, HK);
    NameMetaSnoc(s.p.meta, name, c, Observe(cfg, l, c, HK));
  }

  lemma {:induction false} NameRun(cfg: Config, s: Live, name: string)
    requires BeforeHeader(cfg, s) && 0 < |name| < INT16_MAX
    requires forall i :: 0 <= i < |name| ==> NameChar(name[i])
    ensures Run(cfg, s, name).Go? && Run(cfg, s, name).out == [] && InName(Run(cfg, s, name).s, s, name)
    decreases |name|
  {
    var n := |name| - 1;
    var a, c := name[..n], name[n];
    assert name == a + [c];
    ClassesAreSets(c);
    if n == 0 {
      assert name == [c];
      RunOne(cfg, s, c);
      NameStart(cfg, s, c);
    } else {
      NameRun(cfg, s, a);
      var l := Run(cfg, s, a).s;
      RunGo(cfg, s, a, [c]);
      RunOne(cfg, l, c);
      NameStep(cfg, s, l, a, c);
    }
  }

  // ------------------------------------------------------------------ header values

  predicate ChunkedLike(value: string) {
    forall i :: 0 <= i < |value| ==> Lower(value[i]) == ChunkedByte(i)
  }

  predicate Digits(text: string) {
    forall i :: 0 <= i < |text| ==> IsDigit(text[i])
  }

  /** The number that a string of decimal digits stands for. */
  function Decimal(text: string): nat
    requires Digits(text)
  {
    if text == "" then 0 else Decimal(text[..|text| - 1]) * 10 + DigitVal(text[|text| - 1])
  }

  function ValueMeta(m: Meta, value: string): Meta {
    if m == M_MCK && !ChunkedLike(value) then M_WFK else m
  }

  /** The reading state inside a header value of which `value` has been read. */
  predicate InValue(l: Live, s: Live, value: string) {
    && l.p.state == HV && l.kind == T_HEADER_VAL && l.text == value && l.pos == s.pos + |value|
    && l.p.meta == ValueMeta(s.p.meta, value) && l.p.bodyConsumed == 0 && l.p.headerCount == s.p.headerCount
    && l.p.contentLength == (if s.p.meta == M_CLV && Digits(value) then Decimal(value) else s.p.contentLength)
    && (if l.p.meta == M_MCK then l.p.matchIndex == |value| <= |CHUNKED| else l.p.matchIndex <= |CHUNKED| + 1)
  }

  /** After the colon and any blanks. */
  predicate BeforeValue(s: Live) {
    LiveInv(s) && s.p.state == HS && s.p.matchIndex == 0 && s.p.headerCount < INT16_MAX
        && (s.p.meta == M_CLV ==> s.p.contentLength == 0)
  }

  lemma ChunkedLikeSnoc(value: string, c: char)
    requires FieldChar(c)
    ensures ChunkedLike(value + [c]) <==> ChunkedLike(value) && Lower(c) == ChunkedByte(|value|)
    ensures ChunkedLike(value + [c]) ==> |value| < |CHUNKED|
  {
    var v := value + [c];
    assert forall i :: 0 <= i < |value| ==> v[i] == value[i];
    assert v[|value|] == c;
    assert Lower(c) != '\0';
  }

  lemma DecimalSnoc(text: string, c: char)
    requires Digits(text + [c])
    ensures Digits(text) && IsDigit(c) && Decimal(text + [c]) == Decimal(text) * 10 + DigitVal(c)
  {
    var n := text + [c];
    assert forall i :: 0 <= i < |text| ==> n[i] == text[i];
    assert n[..|n| - 1] == text && n[|text|] == c;
  }

  /** A Content-Length is read as the number that its decimal digits write. */
  lemma {:induction false} DecimalSpelling(text: string, n: nat)
    ensures Spells(text, n, 10) <==> Digits(text) && Decimal(text) == n
    decreases |text|
  {
    if text != "" {
      var k := |text| - 1;
      assert text == text[..k] + [text[k]];
      DecimalSpelling(text[..k], n / 10);
      DigitForIff(text[k], n % 10);
      if Digits(text) {
        DecimalSnoc(text[..k], text[k]);
      }
    }
  }

  lemma OneDigit(c: char)
    requires IsDigit(c)
    ensures Digits([c]) && Decimal([c]) == DigitVal(c)
  {
    assert "" + [c] == [c];
    DecimalSnoc("", c);
  }

  /** The first byte of a value opens it. */
  lemma ValueOpens(cfg: Config, s: Live, c: char)
    requires BeforeValue(s) && VisibleChar(c) && (s.p.meta == M_CLV ==> IsDigit(c))
    requires Edge(s.p.state, s.p.meta, HV) && Assumed(cfg, s, c, HV)
    ensures InValue(HeadLive(cfg, s, c, HV), s, [c])
  {
    ChunkedLikeSnoc("", c);
    assert "" + [c] == [c];
    if s.p.meta == M_CLV {
      OneDigit(c);
    }
  }

  lemma ValueFirst(cfg: Config, s: Live, c: char)
    requires BeforeValue(s) && VisibleChar(c) && (s.p.meta == M_CLV ==> IsDigit(c))
    ensures Step(cfg, s, c).Go? && Step(cfg, s, c).out == [] && InValue(Step(cfg, s, c).s, s, [c])
  {
    StepTo(cfg, s, c, HV);
    ValueOpens(cfg, s, c);
  }

  lemma ValueStep(cfg: Config, s: Live, l: Live, value: string, c: char)
    requires BeforeValue(s) && LiveInv(l) && value != "" && InValue(l, s, value) && FieldChar(c)
    requires s.p.meta == M_CLV ==> Digits(value + [c]) && Decimal(value + [c]) < INT_LIMIT
    ensures Step(cfg, l, c).Go? && Step(cfg, l, c).out == [] && InValue(Step(cfg, l, c).s, s, value + [c])
  {
    if s.p.meta == M_CLV {
      DecimalSnoc(value, c);
    }
    StepTo(cfg, l, c, HV);
    ChunkedLikeSnoc(value, c);
  }

  lemma {:induction false} ValueRun(cfg: Config, s: Live, value: string)
    requires BeforeValue(s) && value != "" && VisibleChar(value[0])
    requires forall i :: 0 <= i < |value| ==> FieldChar(value[i])
    requires s.p.meta == M_CLV ==> Digits(value) && Decimal(value) < INT_LIMIT
    ensures Run(cfg, s, value).Go? && Run(cfg, s, value).out == [] && InValue(Run(cfg, s, value).s, s, value)
    decreases |value|
  {
    var n := |value| - 1;
    var a, c := value[..n], value[n];
    assert value == a + [c];
    if n == 0 {
      assert value == [c];
      RunOne(cfg, s, c);
      ValueFirst(cfg, s, c);
    } else {
      if s.p.meta == M_CLV {
        DecimalSnoc(a, c);
      }
      ValueRun(cfg, s, a);
      var l := Run(cfg, s, a).s;
      RunGo(cfg, s, a, [c]);
      RunOne(cfg, l, c);
      ValueStep(cfg, s, l, a, c);
    }
  }

  // ------------------------------------------------------------------ header lines

  /** From `s` the bytes `a` lead to `l`, emitting `o`; kept folded. */
  ghost predicate Leads(cfg: Config, s: Live, a: string, l: Live, o: seq<Atom>) {
    forall x :: Peek(x) && x == s ==> LiveInv(x) && Run(cfg, x, a) == Go(l, o)
  }

  lemma LeadsIs(cfg: Config, s: Live, a: string, l: Live, o: seq<Atom>)
    requires Leads(cfg, s, a, l, o)
    ensures LiveInv(s) && LiveInv(l) && Run(cfg, s, a) == Go(l, o)
  {
    assert Peek(s);
  }

  lemma LeadsSeq(cfg: Config, s: Live, a: string, l: Live, o: seq<Atom>, b: string, l2: Live, o2: seq<Atom>)
    requires Leads(cfg, s, a, l, o) && Leads(cfg, l, b, l2, o2)
    ensures Leads(cfg, s, a + b, l2, o + o2)
  {
    LeadsIs(cfg, s, a, l, o);
    LeadsIs(cfg, l, b, l2, o2);
    RunGo(cfg, s, a, b);
  }

  lemma LeadsStep(cfg: Config, s: Live, c: char, l: Live, o: seq<Atom>)
    requires LiveInv(s) && Step(cfg, s, c) == Go(l, o)
    ensures Leads(cfg, s, [c], l, o)
  {
    RunOne(cfg, s, c);
  }

  /** From `s` the bytes `a` complete the message, emitting `o`; kept folded. */
  ghost predicate Finishes(cfg: Config, s: Live, a: string, o: seq<Atom>) {
    forall x :: Peek(x) && x == s ==> LiveInv(x) && Run(cfg, x, a) == Done(o)
  }

  lemma FinishesIs(cfg: Config, s: Live, a: string, o: seq<Atom>)
    requires Finishes(cfg, s, a, o)
    ensures LiveInv(s) && Run(cfg, s, a) == Done(o)
  {
    assert Peek(s);
  }

  lemma FinishesSeq(cfg: Config, s: Live, a: string, l: Live, o: seq<Atom>, b: string, o2: seq<Atom>)
    requires Leads(cfg, s, a, l, o) && Finishes(cfg, l, b, o2)
    ensures Finishes(cfg, s, a + b, o + o2)
  {
    LeadsIs(cfg, s, a, l, o);
    FinishesIs(cfg, l, b, o2);
    RunGo(cfg, s, a, b);
  }

  datatype Header = Header(name: string, ows: string, value: string)

  /** A header line the tokeniser reads as one: a name, a colon, optional blanks, and a value that is not
      empty and does not start with a blank. */
  predicate GoodHeader(h: Header) {
    && 0 < |h.name| < INT16_MAX && (forall i :: 0 <= i < |h.name| ==> NameChar(h.name[i]))
    && (forall i :: 0 <= i < |h.ows| ==> h.ows[i] == ' ' || h.ows[i] == '\t')
    && h.value != "" && VisibleChar(h.value[0]) && (forall i :: 0 <= i < |h.value| ==> FieldChar(h.value[i]))
  }

  function EncodeHeader(h: Header): string {
    h.name + ":" + h.ows + h.value + "\r\n"
  }

  /** How the headers read so far frame the body. */
  datatype Framing = NoBody | Length(n: nat) | Chunked

  predicate ReadAsLength(f: Framing, h: Header) {
    f.NoBody? && !TeLike(h.name) && ClLike(h.name)
  }

  /** The length values that the tokeniser takes without checking. */
  predicate GoodFraming(f: Framing, h: Header) {
    ReadAsLength(f, h) ==> Digits(h.value) && Decimal(h.value) < INT_LIMIT
  }

  /** The first framing header decides; later ones are ignored. */
  function Frame(f: Framing, h: Header): Framing
    requires GoodFraming(f, h)
  {
    if !f.NoBody? then f
    else if TeLike(h.name) then (if ChunkedLike(h.value) then Chunked else NoBody)
    else if ClLike(h.name) then Length(Decimal(h.value))
    else NoBody
  }

  function FrameMeta(f: Framing): Meta {
    match f
    case NoBody => M_ANY
    case Length(_) => M_SML
    case Chunked => M_CHK
  }

  function FrameLength(f: Framing): nat {
    if f.Length? then f.n else 0
  }

  /** The reading state between two header lines. */
  function Between(st: State, f: Framing, count: nat, pos: nat): Live {
    Live(Parser(FrameLength(f), 0, 0, count, st, FrameMeta(f)), T_NONE, "", pos)
  }

  predicate CanRead(cfg: Config, st: State, f: Framing, count: nat) {
    && ((st == RN && f.NoBody?) || st == HE) && count < cfg.maxHeaders && count < INT16_MAX - 1
    && (f.Length? ==> f.n < INT_LIMIT)
  }

  lemma BetweenIsReady(cfg: Config, st: State, f: Framing, count: nat, pos: nat)
    requires CanRead(cfg, st, f, count)
    ensures BeforeHeader(cfg, Between(st, f, count, pos))
  {
  }

  /** The meta state once the name of a header is complete. */
  function KeyMeta(f: Framing, h: Header): Meta {
    MetaNext(NameMeta(FrameMeta(f), h.name), END_KEY)
  }

  function AfterColon(f: Framing, h: Header, count: nat, pos: nat): Live {
    Live(Parser(FrameLength(f), 0, 0, count, HS, KeyMeta(f, h)), T_NONE, "", pos)
  }

  lemma ColonStep(cfg: Config, st: State, f: Framing, count: nat, pos: nat, h: Header, l: Live)
    requires CanRead(cfg, st, f, count) && GoodHeader(h) && LiveInv(l) && InName(l, Between(st, f, count, pos), h.name)
    ensures Step(cfg, l, ':') == Go(AfterColon(f, h, count + 1, l.pos + 1), [Tok(T_HEADER_KEY, h.name)])
  {
    StepTo(cfg, l, ':', HS);
  }

  lemma BlankStep(cfg: Config, s: Live, c: char, k: nat)
    requires BeforeValue(s) && (c == ' ' || c == '\t')
    ensures Leads(cfg, s.(pos := s.pos + k), [c], s.(pos := s.pos + k + 1), [])
  {
    var l := s.(pos := s.pos + k);
    StepTo(cfg, l, c, HS);
    LeadsStep(cfg, l, c, s.(pos := s.pos + k + 1), []);
  }

  lemma {:induction false} BlankRun(cfg: Config, s: Live, ows: string)
    requires BeforeValue(s) && forall i :: 0 <= i < |ows| ==> ows[i] == ' ' || ows[i] == '\t'
    ensures Leads(cfg, s, ows, s.(pos := s.pos + |ows|), [])
    decreases |ows|
  {
    if ows != "" {
      var n := |ows| - 1;
      var a, c := ows[..n], ows[n];
      assert ows == a + [c];
      BlankRun(cfg, s, a);
      BlankStep(cfg, s, c, n);
      LeadsSeq(cfg, s, a, s.(pos := s.pos + n), [], [c], s.(pos := s.pos + n + 1), []);
    }
  }

  lemma ValueEnd(cfg: Config, f: Framing, h: Header, s: Live, l: Live)
    requires GoodHeader(h) && GoodFraming(f, h) && BeforeValue(s) && s.p.contentLength == FrameLength(f)
      && s.p.meta == KeyMeta(f, h)
    requires LiveInv(l) && InValue(l, s, h.value)
    ensures Leads(cfg, l, "\r", Between(HR, Frame(f, h), s.p.headerCount, l.pos + 1), [Tok(T_HEADER_VAL, h.value)])
  {
    StepTo(cfg, l, '\r', HR);
    LeadsStep(cfg, l, '\r', Between(HR, Frame(f, h), s.p.headerCount, l.pos + 1), [Tok(T_HEADER_VAL, h.value)]);
  }

  lemma LineFeed(cfg: Config, f: Framing, count: nat, pos: nat)
    requires LiveInv(Between(HR, f, count, pos)) && count < INT16_MAX
    ensures Leads(cfg, Between(HR, f, count, pos), "\n", Between(HE, f, count, pos + 1), [])
  {
    StepTo(cfg, Between(HR, f, count, pos), '\n', HE);
    LeadsStep(cfg, Between(HR, f, count, pos), '\n', Between(HE, f, count, pos + 1), []);
  }

  lemma ColonIsReady(cfg: Config, st: State, f: Framing, count: nat, pos: nat, h: Header, at: nat)
    requires CanRead(cfg, st, f, count) && GoodHeader(h)
    ensures BeforeValue(AfterColon(f, h, count + 1, at)) && (KeyMeta(f, h) == M_CLV <==> ReadAsLength(f, h))
  {
    if f.NoBody? && TeLike(h.name) {
      assert Lower(h.name[0]) == TeByte(0) && ClByte(0) == 'c';
    }
  }

  /** Name and colon. */
  lemma NamePart(cfg: Config, st: State, f: Framing, count: nat, pos: nat, h: Header)
    requires CanRead(cfg, st, f, count) && GoodHeader(h)
    ensures Leads(cfg, Between(st, f, count, pos), h.name + ":",
                  AfterColon(f, h, count + 1, pos + |h.name| + 1), [Tok(T_HEADER_KEY, h.name)])
  {
    var s := Between(st, f, count, pos);
    BetweenIsReady(cfg, st, f, count, pos);
    NameRun(cfg, s, h.name);
    var l := Run(cfg, s, h.name).s;
    ColonStep(cfg, st, f, count, pos, h, l);
    LeadsStep(cfg, l, ':', AfterColon(f, h, count + 1, l.pos + 1), [Tok(T_HEADER_KEY, h.name)]);
    LeadsSeq(cfg, s, h.name, l, [], ":", AfterColon(f, h, count + 1, l.pos + 1), [Tok(T_HEADER_KEY, h.name)]);
  }

  lemma ValueLeads(cfg: Config, s: Live, value: string) returns (l: Live)
    requires BeforeValue(s) && value != "" && VisibleChar(value[0])
    requires forall i :: 0 <= i < |value| ==> FieldChar(value[i])
    requires s.p.meta == M_CLV ==> Digits(value) && Decimal(value) < INT_LIMIT
    ensures LiveInv(l) && InValue(l, s, value) && Leads(cfg, s, value, l, [])
  {
    ValueRun(cfg, s, value);
    l := Run(cfg, s, value).s;
  }

  /** Blanks and value. */
  lemma ValuePart(cfg: Config, s: Live, h: Header) returns (s1: Live, l: Live)
    requires GoodHeader(h) && BeforeValue(s) && (s.p.meta == M_CLV ==> Digits(h.value) && Decimal(h.value) < INT_LIMIT)
    ensures s1 == s.(pos := s.pos + |h.ows|) && BeforeValue(s1) && LiveInv(l) && InValue(l, s1, h.value)
    ensures Leads(cfg, s, h.ows + h.value, l, [])
  {
    s1 := s.(pos := s.pos + |h.ows|);
    BlankRun(cfg, s, h.ows);
    l := ValueLeads(cfg, s1, h.value);
    LeadsSeq(cfg, s, h.ows, s1, [], h.value, l, []);
  }

  /** The line end. */
  lemma LineEnd(cfg: Config, f: Framing, h: Header, s: Live, l: Live)
    requires GoodHeader(h) && GoodFraming(f, h) && BeforeValue(s) && s.p.contentLength == FrameLength(f)
      && s.p.meta == KeyMeta(f, h)
    requires LiveInv(l) && InValue(l, s, h.value)
    ensures Leads(cfg, l, "\r\n", Between(HE, Frame(f, h), s.p.headerCount, l.pos + 2), [Tok(T_HEADER_VAL, h.value)])
  {
    var s2 := Between(HR, Frame(f, h), s.p.headerCount, l.pos + 1);
    ValueEnd(cfg, f, h, s, l);
    LeadsIs(cfg, l, "\r", s2, [Tok(T_HEADER_VAL, h.value)]);
    LineFeed(cfg, Frame(f, h), s.p.headerCount, l.pos + 1);
    var s3 := Between(HE, Frame(f, h), s.p.headerCount, l.pos + 2);
    LeadsSeq(cfg, l, "\r", s2, [Tok(T_HEADER_VAL, h.value)], "\n", s3, []);
    assert "\r" + "\n" == "\r\n";
  }

  function HeaderAtoms(h: Header): seq<Atom> {
    [Tok(T_HEADER_KEY, h.name), Tok(T_HEADER_VAL, h.value)]
  }

  /** One header line gives one name token and one value token and reframes the body. */
  lemma HeaderLine(cfg: Config, st: State, f: Framing, count: nat, pos: nat, h: Header)
    requires CanRead(cfg, st, f, count) && GoodHeader(h) && GoodFraming(f, h)
    ensures Leads(cfg, Between(st, f, count, pos), EncodeHeader(h),
                  Between(HE, Frame(f, h), count + 1, pos + |EncodeHeader(h)|), HeaderAtoms(h))
  {
    var s := Between(st, f, count, pos);
    var key, val := Tok(T_HEADER_KEY, h.name), Tok(T_HEADER_VAL, h.value);
    var s1 := AfterColon(f, h, count + 1, pos + |h.name| + 1);
    NamePart(cfg, st, f, count, pos, h);
    ColonIsReady(cfg, st, f, count, pos, h, s1.pos);
    var s2, l := ValuePart(cfg, s1, h);
    LineEnd(cfg, f, h, s2, l);
    var s3 := Between(HE, Frame(f, h), count + 1, l.pos + 2);
    LeadsSeq(cfg, s, h.name + ":", s1, [key], h.ows + h.value, l, []);
    LeadsSeq(cfg, s, h.name + ":" + (h.ows + h.value), l, [key] + [], "\r\n", s3, [val]);
    assert h.name + ":" + (h.ows + h.value) + "\r\n" == EncodeHeader(h);
    assert [key] + [] + [val] == HeaderAtoms(h);
  }

  function EncodeHeaders(hs: seq<Header>): string {
    if hs == [] then "" else EncodeHeader(hs[0]) + EncodeHeaders(hs[1..])
  }

  function AllHeaderAtoms(hs: seq<Header>): seq<Atom> {
    if hs == [] then [] else HeaderAtoms(hs[0]) + AllHeaderAtoms(hs[1..])
  }

  /** Every header is one the tokeniser reads as intended, given how the body is framed before it. */
  predicate GoodHeaders(f: Framing, hs: seq<Header>)
    decreases |hs|
  {
    hs == [] || (GoodHeader(hs[0]) && GoodFraming(f, hs[0]) && GoodHeaders(Frame(f, hs[0]), hs[1..]))
  }

  /** How a list of headers frames the body. */
  function FrameAll(f: Framing, hs: seq<Header>): Framing
    requires GoodHeaders(f, hs)
    decreases |hs|
  {
    if hs == [] then f else FrameAll(Frame(f, hs[0]), hs[1..])
  }

  lemma {:induction false} HeaderLines(cfg: Config, st: State, f: Framing, count: nat, pos: nat, hs: seq<Header>)
    requires hs != [] && CanRead(cfg, st, f, count) && GoodHeaders(f, hs)
    requires count + |hs| <= cfg.maxHeaders && count + |hs| < INT16_MAX
    ensures Leads(cfg, Between(st, f, count, pos), EncodeHeaders(hs),
                  Between(HE, FrameAll(f, hs), count + |hs|, pos + |EncodeHeaders(hs)|), AllHeaderAtoms(hs))
    ensures FrameAll(f, hs).Length? ==> FrameAll(f, hs).n < INT_LIMIT
    decreases |hs|
  {
    var h, rest := hs[0], hs[1..];
    HeaderLine(cfg, st, f, count, pos, h);
    var s1 := Between(HE, Frame(f, h), count + 1, pos + |EncodeHeader(h)|);
    if rest == [] {
      assert EncodeHeader(h) + "" == EncodeHeader(h);
      assert HeaderAtoms(h) + [] == HeaderAtoms(h);
    } else {
      HeaderLines(cfg, HE, Frame(f, h), count + 1, s1.pos, rest);
      LeadsSeq(cfg, Between(st, f, count, pos), EncodeHeader(h), s1, HeaderAtoms(h), EncodeHeaders(rest),
               Between(HE, FrameAll(f, hs), count + |hs|, pos + |EncodeHeaders(hs)|), AllHeaderAtoms(rest));
    }
  }

  // ------------------------------------------------------------------ the request line

  predicate GoodMethod(m: string) {
    m != "" && m[0] !in DIGITS && forall i :: 0 <= i < |m| ==> NameChar(m[i])
  }

  predicate GoodTarget(t: string) {
    t != "" && t[0] != ':' && t[0] != ';' && forall i :: 0 <= i < |t| ==> VisibleChar(t[i])
  }

  predicate GoodVersion(v: string) {
    v != "" && forall i :: 0 <= i < |v| ==> VisibleChar(v[i]) && v[i] != ':' && v[i] != ';'
  }

  /** A part of the request line keeps the tokeniser in the state of that part. */
  lemma PartStays(m: string, t: string, v: string)
    requires GoodMethod(m) && GoodTarget(t) && GoodVersion(v)
    ensures Next(ST, CType(m[0])) == MT && forall i :: 0 <= i < |m| ==> Next(MT, CType(m[i])) == MT
    ensures Next(MS, CType(t[0])) == TR && forall i :: 0 <= i < |t| ==> Next(TR, CType(t[i])) == TR
    ensures Next(TS, CType(v[0])) == VN && forall i :: 0 <= i < |v| ==> Next(VN, CType(v[i])) == VN
  {
    ClassesAreSets(m[0]);
    forall i | 0 <= i < |m|
      ensures Next(MT, CType(m[i])) == MT
    {
      ClassesAreSets(m[i]);
    }
  }

  /** The state in which a part of the request line is read, with what has been read of it. */
  function InLine(st: State, text: string, pos: nat): Live {
    Live(Parser(0, 0, 0, 0, st, if st <= VN then M_WFK else M_ANY), StartToken(st), text, pos)
  }

  lemma LineOpens(cfg: Config, from: State, st: State, pos: nat, c: char)
    requires (from == ST && st == MT) || (from == MS && st == TR) || (from == TS && st == VN)
    requires Next(from, CType(c)) == st
    ensures Leads(cfg, InLine(from, "", pos), [c], InLine(st, [c], pos + 1), [])
  {
    var s, l := InLine(from, "", pos), InLine(st, [c], pos + 1);
    StepTo(cfg, s, c, st);
    LeadsStep(cfg, s, c, l, []);
  }

  lemma LineGrows(cfg: Config, st: State, pos: nat, c: char, text: string)
    requires st == MT || st == TR || st == VN
    requires forall i :: 0 <= i < |text| ==> Next(st, CType(text[i])) == st
    ensures Leads(cfg, InLine(st, [c], pos + 1), text, InLine(st, [c] + text, pos + 1 + |text|), [])
  {
    PlainRun(cfg, InLine(st, [c], pos + 1), text);
  }

  lemma LineToken(cfg: Config, from: State, st: State, pos: nat, text: string)
    requires (from == ST && st == MT) || (from == MS && st == TR) || (from == TS && st == VN)
    requires text != "" && Next(from, CType(text[0])) == st
    requires forall i :: 0 <= i < |text| ==> Next(st, CType(text[i])) == st
    ensures Leads(cfg, InLine(from, "", pos), text, InLine(st, text, pos + |text|), [])
  {
    var c, rest := text[0], text[1..];
    LineOpens(cfg, from, st, pos, c);
    LineGrows(cfg, st, pos, c, rest);
    assert [c] + rest == text;
    LeadsSeq(cfg, InLine(from, "", pos), [c], InLine(st, [c], pos + 1), [], rest, InLine(st, text, pos + |text|), []);
  }

  lemma LineSeparator(cfg: Config, st: State, to: State, text: string, pos: nat, c: char)
    requires text != ""
    requires
      || (st == MT && to == MS && c == ' ')
      || (st == TR && to == TS && c == ' ')
      || (st == VN && to == RR && c == '\r')
    ensures Leads(cfg, InLine(st, text, pos), [c], InLine(to, "", pos + 1), [Tok(StartToken(st), text)])
  {
    StepTo(cfg, InLine(st, text, pos), c, to);
    LeadsStep(cfg, InLine(st, text, pos), c, InLine(to, "", pos + 1), [Tok(StartToken(st), text)]);
  }

  lemma LinePart(cfg: Config, from: State, st: State, to: State, pos: nat, text: string, c: char)
    requires
      || (from == ST && st == MT && to == MS && c == ' ')
      || (from == MS && st == TR && to == TS && c == ' ')
      || (from == TS && st == VN && to == RR && c == '\r')
    requires text != "" && Next(from, CType(text[0])) == st
    requires forall i :: 0 <= i < |text| ==> Next(st, CType(text[i])) == st
    ensures Leads(cfg, InLine(from, "", pos), text + [c], InLine(to, "", pos + |text| + 1), [Tok(StartToken(st), text)])
  {
    LineToken(cfg, from, st, pos, text);
    LineSeparator(cfg, st, to, text, pos + |text|, c);
    LeadsSeq(cfg, InLine(from, "", pos), text, InLine(st, text, pos + |text|), [], [c],
        InLine(to, "", pos + |text| + 1), [Tok(StartToken(st), text)]);
    assert [] + [Tok(StartToken(st), text)] == [Tok(StartToken(st), text)];
  }

  function RequestLine(m: string, t: string, v: string): string {
    m + " " + (t + " ") + (v + "\r") + "\n"
  }

  lemma LineParts(cfg: Config, m: string, t: string, v: string, i: nat, j: nat)
    requires GoodMethod(m) && GoodTarget(t) && GoodVersion(v)
    ensures Leads(cfg, InLine(ST, "", 0), m + " ", InLine(MS, "", |m| + 1), [Tok(T_METHOD, m)])
    ensures Leads(cfg, InLine(MS, "", i), t + " ", InLine(TS, "", i + |t| + 1), [Tok(T_TARGET, t)])
    ensures Leads(cfg, InLine(TS, "", j), v + "\r", InLine(RR, "", j + |v| + 1), [Tok(T_VERSION, v)])
  {
    PartStays(m, t, v);
    LinePart(cfg, ST, MT, MS, 0, m, ' ');
    LinePart(cfg, MS, TR, TS, i, t, ' ');
    LinePart(cfg, TS, VN, RR, j, v, '\r');
  }

  lemma RequestLineTokens(cfg: Config, m: string, t: string, v: string)
    requires GoodMethod(m) && GoodTarget(t) && GoodVersion(v)
    ensures Leads(cfg, FRESH, RequestLine(m, t, v), Between(RN, NoBody, 0, |RequestLine(m, t, v)|),
                  [Tok(T_METHOD, m), Tok(T_TARGET, t), Tok(T_VERSION, v)])
  {
    var a, b, c := m + " ", t + " ", v + "\r";
    LineParts(cfg, m, t, v, |a|, |a| + |b|);
    LeadsSeq(cfg, FRESH, a, InLine(MS, "", |a|), [Tok(T_METHOD, m)], b, InLine(TS, "", |a| + |b|), [Tok(T_TARGET, t)]);
    LeadsSeq(cfg, FRESH, a + b, InLine(TS, "", |a| + |b|), [Tok(T_METHOD, m)] + [Tok(T_TARGET, t)], c,
             InLine(RR, "", |a| + |b| + |c|), [Tok(T_VERSION, v)]);
    LastFeed(cfg, |a| + |b| + |c|);
    LeadsSeq(cfg, FRESH, a + b + c, InLine(RR, "", |a| + |b| + |c|),
        [Tok(T_METHOD, m)] + [Tok(T_TARGET, t)] + [Tok(T_VERSION, v)], "\n",
             Between(RN, NoBody, 0, |a| + |b| + |c| + 1), []);
    assert [Tok(T_METHOD, m)] + [Tok(T_TARGET, t)] + [Tok(T_VERSION, v)] + [] ==
      [Tok(T_METHOD, m), Tok(T_TARGET, t), Tok(T_VERSION, v)];
  }

  lemma LastFeed(cfg: Config, pos: nat)
    ensures Leads(cfg, InLine(RR, "", pos), "\n", Between(RN, NoBody, 0, pos + 1), [])
  {
    StepTo(cfg, InLine(RR, "", pos), '\n', RN);
    LeadsStep(cfg, InLine(RR, "", pos), '\n', Between(RN, NoBody, 0, pos + 1), []);
  }

  // ------------------------------------------------------------------ the blank line

  /** How the body is delivered: not at all, whole, in streamed pieces, or in chunks. */
  function BodyMeta(cfg: Config, f: Framing, pos: nat): Meta {
    match f
    case NoBody => M_END
    case Length(n) => if !CanContain(cfg, pos, n) then M_STR else if n == 0 then M_END else M_BDY
    case Chunked => M_ZER
  }

  function AtBodyStart(cfg: Config, f: Framing, count: nat, pos: nat): Live {
    Live(Parser(FrameLength(f), 0, 0, count, HN, BodyMeta(cfg, f, pos)), T_NONE, "", pos + 1)
  }

  lemma BlankLineCr(cfg: Config, f: Framing, count: nat, pos: nat)
    requires LiveInv(Between(HE, f, count, pos)) && count < INT16_MAX
    ensures LiveInv(Between(ER, f, count, pos + 1))
    ensures Step(cfg, Between(HE, f, count, pos), '\r') == Go(Between(ER, f, count, pos + 1), [])
  {
    StepTo(cfg, Between(HE, f, count, pos), '\r', ER);
  }

  lemma BlankLineNl(cfg: Config, f: Framing, count: nat, pos: nat)
    requires LiveInv(Between(ER, f, count, pos)) && count < INT16_MAX && pos < cfg.bufMax
    ensures var m := BodyMeta(cfg, f, pos);
      var l := AtBodyStart(cfg, f, count, pos);
      if m == M_END then Step(cfg, Between(ER, f, count, pos), '\n') == Done([Tok(T_BODY, ""), FINISH])
      else LiveInv(l) && Step(cfg, Between(ER, f, count, pos), '\n') == Go(l, HeadersEnd(m))
  {
    StepTo(cfg, Between(ER, f, count, pos), '\n', HN);
    assert [Tok(T_BODY, "")] + [FINISH] == [Tok(T_BODY, ""), FINISH];
  }

  lemma TwoSteps(cfg: Config, s: Live, a: char, l: Live, b: char)
    requires LiveInv(s) && LiveInv(l) && Step(cfg, s, a) == Go(l, [])
    ensures Run(cfg, s, [a, b]) == Step(cfg, l, b)
  {
    RunOne(cfg, s, a);
    RunGo(cfg, s, [a], [b]);
    RunOne(cfg, l, b);
    assert [a] + [b] == [a, b];
    PrefixNil(Step(cfg, l, b));
  }

  /** The end of the header section settles how the body is delivered. */
  lemma BlankLine(cfg: Config, f: Framing, count: nat, pos: nat)
    requires LiveInv(Between(HE, f, count, pos)) && count < INT16_MAX && pos + 1 < cfg.bufMax
    ensures var m := BodyMeta(cfg, f, pos + 1);
      if m == M_END then Run(cfg, Between(HE, f, count, pos), "\r\n") == Done([Tok(T_BODY, ""), FINISH])
      else Leads(cfg, Between(HE, f, count, pos), "\r\n", AtBodyStart(cfg, f, count, pos + 1), HeadersEnd(m))
  {
    var s, l := Between(HE, f, count, pos), Between(ER, f, count, pos + 1);
    BlankLineCr(cfg, f, count, pos);
    BlankLineNl(cfg, f, count, pos + 1);
    TwoSteps(cfg, s, '\r', l, '\n');
  }
}
