/** A one-byte-at-a-time reading of the request tokeniser: what the two coupled machines do with a
    single input byte, with no buffer at all.  The buffered implementation is proved to refine it. */
module TokenSpec {
  import opened Folding
  import opened HttpTables

  /** `bufMax`, `maxHeaders` and `tokenMax` are the server's request_buf_max_size,
      request_max_headers_count and request_token_max_len. */
  datatype Config = Config(bufMax: nat, maxHeaders: nat, tokenMax: nat)

  datatype Parser = Parser(
    contentLength: nat, bodyConsumed: nat, matchIndex: nat, headerCount: nat, state: State, meta: Meta)

  /** `kind` and `text` are the token being read; `pos` is the offset of the next byte while the head is
      read, and the offset of the first body byte from then on. */
  datatype Live = Live(p: Parser, kind: TokenKind, text: string, pos: nat)

  /** What a reader of the token stream sees: whole tokens, and single bytes of a streamed
      Content-Length body, whose cutting into tokens follows the reads. */
  datatype Atom = Tok(kind: TokenKind, text: string) | Part(c: char)

  /** The outcome of consuming bytes: still reading; message complete; rejected with an ERROR token;
      or a byte that the tokeniser's unchecked assumptions exclude. */
  datatype Result = Go(s: Live, out: seq<Atom>) | Done(out: seq<Atom>) | Halt(out: seq<Atom>) | Outside

  const INT16_MAX := 0x7FFF
  const INT_LIMIT := 0x8000_0000

  const START := Parser(0, 0, 0, 0, ST, M_WFK)
  const FRESH := Live(START, T_NONE, "", 0)
  const REJECT := Tok(T_ERROR, "")
  const FINISH := Tok(T_REQ_END, "")

  // ------------------------------------------------------------------ the joint invariant

  /** Which meta states can accompany a character state. */
  predicate Joint(s: State, m: Meta) {
    if s <= VN then m == M_WFK
    else if s <= RN then m == M_ANY
    else if s == HK then m == M_MTE || m == M_MCL || m == M_WFK || m == M_SML || m == M_CHK
    else if s <= HV then m == M_MCK || m == M_CLV || m == M_WFK || m == M_SML || m == M_CHK
    else if s <= ER then m == M_ANY || m == M_SML || m == M_CHK
    else if s == HN then m == M_END || m == M_BDY || m == M_STR || m == M_ZER
    else if s == BD then m == M_BDY || m == M_STR || m == M_END || m == M_SEN
    else if s == CS then m == M_ZER || m == M_CSZ
    else if s == C2 then m == M_ZER || m == M_END
    else s != BR && (m == M_LST || m == M_CBD)
  }

  /** The message is over, or only its closing tokens are still to be emitted. */
  predicate Closing(m: Meta) {
    m == M_SEN || m == M_END
  }

  /** Everything about one byte and the counters that the machines look at, as booleans: the byte
      differs from the expected byte of each framing name and of "chunked", is not '0', the declared
      body is too large or empty, and a body jump reached the end of the body. */
  datatype Seen = Seen(
    notTe: bool, notCl: bool, notChunked: bool, nonZero: bool, large: bool, empty: bool, whole: bool)

  /** The state table lookup with the redirection of the first body byte to the chunk states. */
  function Move(s: State, m: Meta, t: CharType): State
    requires s != BR
  {
    if s == HN && m == M_ZER then CS else Next(s, t)
  }

  function MatchKey(m: Meta, o: Seen): (r: Meta)
    requires m == M_ANY || Joint(HK, m)
    requires m == M_ANY ==> o.notTe || o.notCl
    ensures Joint(HK, r)
  {
    var m1 := if o.notTe then MetaNext(m, NOT_TRANSFER_ENC) else m;
    if o.notCl then MetaNext(m1, NOT_CONTENT_LEN) else m1
  }

  function MetaAtHeadersEnd(m: Meta, o: Seen): (r: Meta)
    requires Joint(ER, m)
    ensures Joint(HN, r)
  {
    var m1 := if m == M_SML && o.large then MetaNext(m, LARGE_BODY) else m;
    var m2 := MetaNext(m1, END_HEADERS);
    if o.empty && m2 == M_BDY then M_END else m2
  }

  /** The meta states in which the table lets a state be entered. */
  predicate Ready(from: State, m: Meta, to: State) {
    if to == HK then m == M_ANY || Joint(HK, m)
    else if to == HS then Joint(if from == HS then HS else HK, m)
    else if to == HR then Joint(HV, m)
    else if to == RR then m == M_WFK
    else if to == HN then Joint(ER, m)
    else if to == BD then m == M_BDY || m == M_STR
    else if to == CE || to == CR then Joint(if from == CS then CS else CR, m)
    else if to == C2 then Joint(C1, m)
    else if to == BR then m != M_ERR && (from == CS ==> Joint(CS, m))
    else to != ST && to != CD && Joint(to, m)
  }

  /** The meta events of a change of state. */
  function EnterMeta(from: State, m: Meta, to: State): Meta
    requires m != M_ERR
  {
    if from == to then m
    else if from == CS then MetaNext(m, END_CHK_SIZE)
    else if to == HS then MetaNext(m, END_KEY)
    else m
  }

  /** The meta events of being in a state. */
  function SwitchMeta(m: Meta, to: State, o: Seen): Meta
    requires m != M_ERR
    requires to == HK ==> (m == M_ANY || Joint(HK, m)) && (m == M_ANY ==> o.notTe || o.notCl)
    requires to == HN ==> Joint(ER, m)
  {
    if to == HK then MatchKey(m, o)
    else if to == HV then (if m == M_MCK && o.notChunked then MetaNext(m, NOT_CHUNKED) else m)
    else if to == RR || to == HR then MetaNext(m, END_VALUE)
    else if to == HN then MetaAtHeadersEnd(m, o)
    else if to == CS then (if o.nonZero then MetaNext(m, NON_ZERO) else m)
    else if to == CB || to == BD then (if o.whole then MetaNext(m, NEXT) else m)
    else if to == C2 then MetaNext(m, END_CHUNK)
    else m
  }

  /** The meta state after one transition. */
  function MetaAfter(from: State, m: Meta, to: State, o: Seen): (r: Meta)
    requires Edge(from, m, to)
    requires to == HK && m == M_ANY ==> o.notTe || o.notCl
  {
    SwitchMeta(EnterMeta(from, m, to), to, o)
  }

  /** States whose entry emits the token read so far. */
  predicate Emits(from: State, to: State) {
    to == MS || to == TS || to == RR || to == HR || (to == HS && from != HS)
  }

  /** What the state table says about one move, besides `Ready`. */
  predicate Edge(from: State, m: Meta, to: State) {
    && Ready(from, m, to)
    && (to == HK && m == M_ANY ==> from != HK)
    && (to == HN ==> from == ER) && (to < HN ==> from < HN) && (HN < to < BR ==> HN <= from)
    && (from != to && StartToken(to) != T_NONE ==> StartToken(from) == T_NONE)
    && (Emits(from, to) ==> StartToken(from) != T_NONE)
    && (from == CS ==> to == CS || to == CE || to == CR || to == BR)
  }

  lemma EdgeSwitch(from: State, m: Meta, to: State)
    requires Edge(from, m, to)
    ensures var m1 := EnterMeta(from, m, to);
      m != M_ERR && m1 != M_ERR && (to == HK ==> m1 == m && (m == M_ANY || Joint(HK, m)))
          && (to == HN ==> Joint(ER, m1)) && (to == HV ==> m1 == m)
  {
  }

  lemma JointStep(from: State, m: Meta, t: CharType, o: Seen)
    requires Joint(from, m) && !Closing(m)
    requires Move(from, m, t) == HK && m == M_ANY ==> o.notTe || o.notCl
    ensures from != BR && m != M_ERR
    ensures Edge(from, m, Move(from, m, t))
    ensures var to := Move(from, m, t);
      to != BR ==> Joint(if to == CB && o.whole then CD else to, MetaAfter(from, m, to, o))
  {
  }

  /** One call of the transition routine as the two machines see it: the byte it is given and the
      outcomes of the three tests that depend on counters. */
  datatype Call = Call(c: char, large: bool, empty: bool, whole: bool)

  function Compare(c: char, k: nat, large: bool, empty: bool, whole: bool): (o: Seen)
    ensures k == 0 ==> o.notTe || o.notCl
  {
    Seen(Lower(c) != TeByte(k), Lower(c) != ClByte(k), Lower(c) != ChunkedByte(k), c != '0', large, empty, whole)
  }

  /** The two machines alone, stopped by an ERROR token or by the end of the message; OutOfRange would
      be a table lookup out of range. */
  datatype Pair = Pair(s: State, m: Meta, k: nat) | Rejected | OutOfRange

  function PairStep(q: Pair, call: Call): Pair {
    if !q.Pair? || Closing(q.m) then q
    else if q.s == BR || q.m == M_ERR then OutOfRange
    else
      var to := Move(q.s, q.m, CType(call.c));
      var k := if to != q.s then 0 else q.k;
      var o := Compare(call.c, k, call.large, call.empty, call.whole);
      if !Edge(q.s, q.m, to) || (to == HK && q.m == M_ANY && !o.notTe && !o.notCl) then OutOfRange
      else if to == BR then Rejected
      else Pair(if to == CB && o.whole then CD else to, MetaAfter(q.s, q.m, to, o),
                if to == HK || (to == HV && q.m == M_MCK) then k + 1 else k)
  }

  function PairRun(q: Pair, calls: seq<Call>): Pair
    decreases |calls|
  {
    if calls == [] then q else PairRun(PairStep(q, calls[0]), calls[1..])
  }

  /** Joint invariant of the two machines over every run: whatever the bytes and whatever the counters
      say, up to the token that ends the message no table is indexed from a row it does not have, the
      meta state is never M_ERR, and `BR` occurs only together with an ERROR token. */
  lemma {:induction false} JointInvariant(q: Pair, calls: seq<Call>)
    requires q.Rejected? || (q.Pair? && Joint(q.s, q.m) && (q.m == M_ANY ==> q.s != HK))
    ensures var r := PairRun(q, calls); r.Rejected? || (r.Pair? && Joint(r.s, r.m) && r.s != BR && r.m != M_ERR)
    decreases |calls|
  {
    if calls != [] {
      if q.Pair? && !Closing(q.m) {
        var to := Move(q.s, q.m, CType(calls[0].c));
        var o := Compare(calls[0].c, if to != q.s then 0 else q.k, calls[0].large, calls[0].empty, calls[0].whole);
        JointStep(q.s, q.m, CType(calls[0].c), o);
      }
      JointInvariant(PairStep(q, calls[0]), calls[1..]);
    }
  }

  // ------------------------------------------------------------------ one byte

  function CanContain(cfg: Config, pos: nat, size: nat): bool {
    cfg.bufMax - pos + 1 >= size
  }

  /** What holds of the reading state between bytes. */
  predicate LiveInv(s: Live) {
    var p := s.p;
    && Joint(p.state, p.meta) && !Closing(p.meta)
    && (s.kind == T_NONE ==> s.text == "")
    && (p.state != BD && p.state != CB ==> p.bodyConsumed == 0)
    && CountersInv(p)
    && s.kind == (if p.meta == M_STR then T_NONE else StartToken(p.state))
    && ((p.state == CB || p.state == BD) && p.meta != M_STR ==> |s.text| == p.bodyConsumed)
  }

  /** How the length counter goes with the meta state. */
  predicate CountersInv(p: Parser) {
    && (p.meta == M_BDY || p.meta == M_STR ==> p.bodyConsumed < p.contentLength)
    && (p.state == CB ==> p.meta == M_CBD && p.bodyConsumed < p.contentLength)
    && (p.meta == M_ZER || p.meta == M_LST || p.state == CD || p.state == C1 ==> p.contentLength == 0)
    && (p.meta == M_CSZ ==> p.contentLength > 0)
    && (p.meta == M_CBD && (p.state == CE || p.state == CR || p.state == CN) ==> p.contentLength > 0)
    && (p.state < HN && p.meta != M_CLV && p.meta != M_SML ==> p.contentLength == 0)
    && p.contentLength < INT_LIMIT
  }

  /** The tokeniser's unchecked assumptions about one byte: digits in a Content-Length value, a
      hexadecimal digit at the start of a chunked body, lengths below 2^31, 16-bit counters that do
      not overflow, and headers that end inside the buffer. */
  predicate Assumed(cfg: Config, s: Live, c: char, to: State) {
    && (to == HV && s.p.meta == M_CLV ==> IsDigit(c) && s.p.contentLength * 10 + DigitVal(c) < INT_LIMIT)
    && (to == CS ==> IsHex(c) && s.p.contentLength * 16 + HexVal(c) < INT_LIMIT)
    && s.p.matchIndex < INT16_MAX && s.p.headerCount < INT16_MAX
    && (to == HN ==> s.pos < cfg.bufMax)
  }

  function MatchPos(s: Live, to: State): nat {
    if s.p.state != to then 0 else s.p.matchIndex
  }

  function Observe(cfg: Config, s: Live, c: char, to: State): (o: Seen)
    ensures MatchPos(s, to) == 0 ==> o.notTe || o.notCl
  {
    Compare(c, MatchPos(s, to), to == HN && !CanContain(cfg, s.pos, s.p.contentLength), s.p.contentLength == 0, false)
  }

  function HeadParser(cfg: Config, s: Live, c: char, to: State): Parser
    requires Edge(s.p.state, s.p.meta, to) && Assumed(cfg, s, c, to)
  {
    var p := s.p;
    Parser(
      if to == HV && p.meta == M_CLV then p.contentLength * 10 + DigitVal(c)
      else if to == CS then p.contentLength * 16 + HexVal(c)
      else p.contentLength,
      p.bodyConsumed,
      if to == HK || (to == HV && p.meta == M_MCK) then MatchPos(s, to) + 1 else MatchPos(s, to),
      if to == HK && p.state != HK then p.headerCount + 1 else p.headerCount,
      to,
      MetaAfter(p.state, p.meta, to, Observe(cfg, s, c, to)))
  }

  /** What the end of the header section announces. */
  function HeadersEnd(m: Meta): seq<Atom> {
    if m == M_END then [Tok(T_BODY, "")]
    else if m == M_STR || m == M_ZER then [Tok(T_BODY_STREAM, "")]
    else []
  }

  /** The token being read when the byte is looked at: a fresh one if the new state opens one. */
  function OpenKind(s: Live, to: State): TokenKind {
    if s.p.state != to && StartToken(to) != T_NONE then StartToken(to) else s.kind
  }

  function OpenText(s: Live, to: State): string {
    if s.p.state != to && StartToken(to) != T_NONE then "" else s.text
  }

  function HeadLive(cfg: Config, s: Live, c: char, to: State): Live
    requires Edge(s.p.state, s.p.meta, to) && Assumed(cfg, s, c, to)
  {
    var kind := if Emits(s.p.state, to) then T_NONE else OpenKind(s, to);
    Live(HeadParser(cfg, s, c, to), kind,
         if kind == T_NONE then "" else OpenText(s, to) + [c],
         if to <= HN then s.pos + 1 else s.pos)
  }

  /** The atoms of a transition outside bodies that leaves the meta state `m`. */
  function HeadAtoms(s: Live, to: State, m: Meta): seq<Atom> {
    if Emits(s.p.state, to) then [Tok(s.kind, s.text)] else if to == HN then HeadersEnd(m) else []
  }

  /** A byte that does not belong to a body. */
  function HeadStep(cfg: Config, s: Live, c: char, to: State): (r: Result)
    requires LiveInv(s) && to == Move(s.p.state, s.p.meta, CType(c)) && to != CB && to != BD
    ensures r.Go? ==> LiveInv(r.s)
  {
    if to == BR then Halt([REJECT])
    else if !Assumed(cfg, s, c, to) then Outside
    else if to == HK && s.p.state != HK && s.p.headerCount + 1 > cfg.maxHeaders then Halt([REJECT])
    else
      JointStep(s.p.state, s.p.meta, CType(c), Observe(cfg, s, c, to));
      var l := HeadLive(cfg, s, c, to);
      var out := HeadAtoms(s, to, l.p.meta);
      HeadKeepsInv(cfg, s, c, to);
      if l.p.meta == M_END then Done(out + [FINISH]) else Go(l, out)
  }

  lemma HeadKeepsInv(cfg: Config, s: Live, c: char, to: State)
    requires LiveInv(s) && to == Move(s.p.state, s.p.meta, CType(c)) && to != CB && to != BD && to != BR
    requires Edge(s.p.state, s.p.meta, to) && Assumed(cfg, s, c, to)
    ensures var l := HeadLive(cfg, s, c, to); l.p.meta == M_END || LiveInv(l)
  {
    var l := HeadLive(cfg, s, c, to);
    JointStep(s.p.state, s.p.meta, CType(c), Observe(cfg, s, c, to));
    assert Joint(l.p.state, l.p.meta);
    HeadKeepsCounters(cfg, s, c, to);
  }

  lemma HeadKeepsCounters(cfg: Config, s: Live, c: char, to: State)
    requires LiveInv(s) && to != CB && to != BD && to != BR
    requires Edge(s.p.state, s.p.meta, to) && Assumed(cfg, s, c, to)
    requires exists t :: to == Move(s.p.state, s.p.meta, t)
    ensures var p := HeadParser(cfg, s, c, to); p.meta == M_END || CountersInv(p)
  {
    if to == HN {
    } else if to < HN {
    } else if to == CS {
    } else {
    }
  }

  function Prefix(out: seq<Atom>, r: Result): Result {
    match r
    case Go(s, o) => Go(s, out + o)
    case Done(o) => Done(out + o)
    case Halt(o) => Halt(out + o)
    case Outside => Outside
  }

  /** The closing tokens that follow a body, once its last byte has been taken. */
  function Trailer(m: Meta): seq<Atom> {
    if m == M_SEN then [Tok(T_CHUNK_BODY, ""), FINISH] else [FINISH]
  }

  /** The state in which the bytes after a body are read. */
  function AfterBody(s: Live, to: State): Live
    requires s.p.meta != M_ERR
  {
    Live(Parser(0, 0, MatchPos(s, to), s.p.headerCount, if to == CB then CD else to, MetaNext(s.p.meta, NEXT)),
         T_NONE, "", s.pos)
  }

  /** The state after a body byte that is not the last. */
  function MidBody(s: Live, to: State, text: string): Live {
    var streamed := s.p.meta == M_STR;
    Live(s.p.(state := to, matchIndex := MatchPos(s, to), bodyConsumed := s.p.bodyConsumed + |text|),
         if streamed then T_NONE else OpenKind(s, to),
         if streamed then "" else OpenText(s, to) + text,
         s.pos)
  }

  function Parts(text: string): (r: seq<Atom>)
    ensures |r| == |text|
  {
    seq(|text|, i requires 0 <= i < |text| => Part(text[i]))
  }

  /** The atoms of body bytes: single bytes when streamed, part of one token otherwise. */
  function Streamed(s: Live, text: string): seq<Atom> {
    if s.p.meta == M_STR then Parts(text) else []
  }

  function WholeBody(s: Live, to: State, text: string): seq<Atom> {
    if s.p.meta == M_STR then Parts(text) else [Tok(OpenKind(s, to), OpenText(s, to) + text)]
  }

  /** A byte read in a body state.  The last chunk has an empty body: its token is emitted when the
      byte after it is seen, and that byte is then read as the end of the chunk. */
  function BodyStep(cfg: Config, s: Live, c: char, to: State): (r: Result)
    requires LiveInv(s) && to == Move(s.p.state, s.p.meta, CType(c)) && (to == CB || to == BD)
    ensures r.Go? ==> LiveInv(r.s)
    decreases 1, Rank(s), 0
  {
    var left := s.p.contentLength - s.p.bodyConsumed;
    var l := AfterBody(s, to);
    if left == 0 then Prefix([Tok(T_CHUNK_BODY, "")], Run(cfg, l, [c]))
    else if left > 1 then Go(MidBody(s, to, [c]), Streamed(s, [c]))
    else if Closing(l.p.meta) then Done(WholeBody(s, to, [c]) + Trailer(l.p.meta))
    else Go(l, WholeBody(s, to, [c]))
  }

  function Rank(s: Live): nat {
    if s.p.state == CN then 1 else 0
  }

  function Step(cfg: Config, s: Live, c: char): (r: Result)
    requires LiveInv(s)
    ensures r.Go? ==> LiveInv(r.s)
    decreases 1, Rank(s), 1
  {
    var to := Move(s.p.state, s.p.meta, CType(c));
    if to == CB || to == BD then BodyStep(cfg, s, c, to) else HeadStep(cfg, s, c, to)
  }

  // ------------------------------------------------------------------ runs

  /** All bytes, one after the other. */
  function Run(cfg: Config, s: Live, bytes: string): (r: Result)
    requires LiveInv(s)
    ensures r.Go? ==> LiveInv(r.s)
    decreases |bytes|, Rank(s), 2
  {
    if bytes == [] then Go(s, []) else Then(cfg, Step(cfg, s, bytes[0]), bytes[1..])
  }

  /** More bytes after an outcome.  The model ends with the message: a byte after it is outside. */
  function Then(cfg: Config, r: Result, bytes: string): (t: Result)
    requires r.Go? ==> LiveInv(r.s)
    ensures t.Go? ==> LiveInv(t.s)
    decreases |bytes|, 2
  {
    match r
    case Go(s, o) => Prefix(o, Run(cfg, s, bytes))
    case Done(o) => if bytes == [] then r else Outside
    case _ => r
  }

  lemma PrefixPrefix(a: seq<Atom>, b: seq<Atom>, r: Result)
    ensures Prefix(a, Prefix(b, r)) == Prefix(a + b, r)
  {
    if !r.Outside? {
      assert a + (b + r.out) == (a + b) + r.out;
    }
  }

  lemma PrefixNil(r: Result)
    ensures Prefix([], r) == r
  {
  }

  lemma {:induction false} ThenPrefix(cfg: Config, out: seq<Atom>, r: Result, bytes: string)
    requires r.Go? ==> LiveInv(r.s)
    ensures Then(cfg, Prefix(out, r), bytes) == Prefix(out, Then(cfg, r, bytes))
  {
    if r.Go? {
      PrefixPrefix(out, r.out, Run(cfg, r.s, bytes));
    }
  }

  lemma RunOne(cfg: Config, s: Live, c: char)
    requires LiveInv(s)
    ensures Run(cfg, s, [c]) == Step(cfg, s, c)
  {
    assert [c][1..] == [];
    if Step(cfg, s, c).Go? {
      assert Step(cfg, s, c).out + [] == Step(cfg, s, c).out;
    }
  }

  /** Reading resumes after any cut. */
  lemma {:induction false} RunSplit(cfg: Config, s: Live, a: string, b: string)
    requires LiveInv(s)
    ensures Run(cfg, s, a + b) == Then(cfg, Run(cfg, s, a), b)
    decreases |a|
  {
    if a == [] {
      assert a + b == b;
      PrefixNil(Run(cfg, s, b));
    } else {
      assert (a + b)[1..] == a[1..] + b;
      assert (a + b)[0] == a[0];
      var r := Step(cfg, s, a[0]);
      if r.Go? {
        RunSplit(cfg, r.s, a[1..], b);
        ThenPrefix(cfg, r.out, Run(cfg, r.s, a[1..]), b);
      }
    }
  }

  // ------------------------------------------------------------------ bodies

  /** The body state that the next byte is read in, whatever the byte is. */
  predicate AtBody(s: Live, to: State) {
    || (to == BD && (s.p.state == BD || (s.p.state == HN && s.p.meta != M_ZER)))
    || (to == CB && (s.p.state == CB || s.p.state == CN))
  }

  function BodyLeft(s: Live): int {
    s.p.contentLength - s.p.bodyConsumed
  }

  /** What the table and the invariant say when a body state is about to be entered. */
  lemma BodyFacts(s: Live, to: State, t: CharType)
    requires LiveInv(s) && to == Move(s.p.state, s.p.meta, t) && (to == CB || to == BD)
    ensures AtBody(s, to) && Edge(s.p.state, s.p.meta, to) && 0 <= BodyLeft(s)
    ensures s.kind == T_NONE <==> s.p.meta == M_STR || s.p.state != to
    ensures OpenKind(s, to) == T_BODY || OpenKind(s, to) == T_CHUNK_BODY || s.p.meta == M_STR
    ensures s.kind != T_ERROR && (StartToken(s.p.state) == T_NONE ==> s.kind == T_NONE)
    ensures BodyLeft(s) == 0 ==> s.p.state == CN && s.p.meta == M_LST
    ensures s.p.meta == M_STR ==> to == BD
  {
  }

  lemma MidBodyInv(s: Live, to: State, text: string)
    requires LiveInv(s) && AtBody(s, to) && 0 <= |text| < BodyLeft(s)
    ensures LiveInv(MidBody(s, to, text)) && AtBody(MidBody(s, to, text), to)
    ensures BodyLeft(MidBody(s, to, text)) == BodyLeft(s) - |text|
    ensures AfterBody(MidBody(s, to, text), to) == AfterBody(s, to)
  {
  }

  lemma MidBodyJoin(s: Live, to: State, a: string, b: string)
    requires LiveInv(s) && AtBody(s, to) && |a| + |b| < BodyLeft(s)
    ensures MidBody(MidBody(s, to, a), to, b) == MidBody(s, to, a + b)
  {
    assert OpenText(s, to) + a + b == OpenText(s, to) + (a + b);
  }

  lemma PartsJoin(a: string, b: string)
    ensures Parts(a) + Parts(b) == Parts(a + b)
  {
  }

  /** The outcome of taking the rest of a body. */
  function BodyEnd(s: Live, to: State, text: string): Result
    requires s.p.meta != M_ERR
  {
    var l := AfterBody(s, to);
    if Closing(l.p.meta) then Done(WholeBody(s, to, text) + Trailer(l.p.meta))
    else Go(l, WholeBody(s, to, text))
  }

  lemma BodyByte(cfg: Config, s: Live, to: State, c: char)
    requires LiveInv(s) && AtBody(s, to) && 0 < BodyLeft(s)
    ensures Step(cfg, s, c) == if BodyLeft(s) == 1 then BodyEnd(s, to, [c])
      else Go(MidBody(s, to, [c]), Streamed(s, [c]))
  {
  }

  /** Body bytes that do not complete the body. */
  lemma {:induction false} BodyGrows(cfg: Config, s: Live, to: State, text: string)
    requires LiveInv(s) && AtBody(s, to) && 0 < |text| < BodyLeft(s)
    ensures Run(cfg, s, text) == Go(MidBody(s, to, text), Streamed(s, text))
    decreases |text|
  {
    var c, rest := text[0], text[1..];
    BodyByte(cfg, s, to, c);
    if rest == [] {
      assert text == [c];
    } else {
      MidBodyInv(s, to, [c]);
      BodyGrows(cfg, MidBody(s, to, [c]), to, rest);
      MidBodyJoin(s, to, [c], rest);
      PartsJoin([c], rest);
      assert [c] + rest == text;
    }
  }

  lemma BodyEndJoin(s: Live, to: State, a: string, c: char)
    requires LiveInv(s) && AtBody(s, to) && |a| < BodyLeft(s)
    ensures LiveInv(MidBody(s, to, a))
      && BodyEnd(s, to, a + [c]) == Prefix(Streamed(s, a), BodyEnd(MidBody(s, to, a), to, [c]))
  {
    MidBodyInv(s, to, a);
    PartsJoin(a, [c]);
    assert OpenText(s, to) + a + [c] == OpenText(s, to) + (a + [c]);
    if s.p.meta == M_STR {
      assert Parts(a) + (Parts([c]) + Trailer(M_SEN)) == Parts(a + [c]) + Trailer(M_SEN);
    }
  }

  /** Body bytes that complete the body. */
  lemma BodyCompletes(cfg: Config, s: Live, to: State, text: string)
    requires LiveInv(s) && AtBody(s, to) && 0 < |text| == BodyLeft(s)
    ensures Run(cfg, s, text) == BodyEnd(s, to, text)
  {
    var n := |text| - 1;
    var a, c := text[..n], text[n];
    assert text == a + [c];
    MidBodyInv(s, to, a);
    var l := if n == 0 then s else MidBody(s, to, a);
    BodyByte(cfg, l, to, c);
    assert Run(cfg, l, [c]) == BodyEnd(l, to, [c]) by {
      assert [c][1..] == [];
    }
    if n == 0 {
      assert text == [c];
    } else {
      BodyGrows(cfg, s, to, a);
      RunSplit(cfg, s, a, [c]);
      BodyEndJoin(s, to, a, c);
    }
  }

  lemma RunHead(cfg: Config, s: Live, to: State, bytes: string)
    requires LiveInv(s) && bytes != [] && to == Move(s.p.state, s.p.meta, CType(bytes[0])) && to != CB && to != BD
    ensures Run(cfg, s, bytes) == Then(cfg, HeadStep(cfg, s, bytes[0], to), bytes[1..])
  {
  }

  /** Whether a byte outside bodies is answered with an ERROR token. */
  predicate Refused(cfg: Config, s: Live, to: State) {
    to == BR || (to == HK && s.p.state != HK && s.p.headerCount + 1 > cfg.maxHeaders)
  }

  lemma HeadOutcome(cfg: Config, s: Live, to: State, bytes: string)
    requires LiveInv(s) && bytes != [] && to == Move(s.p.state, s.p.meta, CType(bytes[0])) && to != CB && to != BD
    requires !Run(cfg, s, bytes).Outside?
    ensures Edge(s.p.state, s.p.meta, to) && (to == BR || Assumed(cfg, s, bytes[0], to))
    ensures Refused(cfg, s, to) ==> Run(cfg, s, bytes) == Halt([REJECT])
    ensures !Refused(cfg, s, to) ==>
      var l := HeadLive(cfg, s, bytes[0], to);
      var out := HeadAtoms(s, to, l.p.meta);
      if l.p.meta == M_END then to != CN && l.kind == T_NONE && bytes[1..] == ""
        && Run(cfg, s, bytes) == Done(out + [FINISH])
      else LiveInv(l) && Run(cfg, s, bytes) == Prefix(out, Run(cfg, l, bytes[1..]))
  {
    RunHead(cfg, s, to, bytes);
    JointStep(s.p.state, s.p.meta, CType(bytes[0]), Observe(cfg, s, bytes[0], to));
  }

  /** Where the rest of a body leads, once its bytes are in. */
  lemma BodyOutcome(cfg: Config, s: Live, to: State, bytes: string)
    requires LiveInv(s) && AtBody(s, to) && bytes != [] && !Run(cfg, s, bytes).Outside?
    ensures 0 <= BodyLeft(s)
    ensures BodyLeft(s) > |bytes| ==>
      LiveInv(MidBody(s, to, bytes)) && Run(cfg, s, bytes) == Go(MidBody(s, to, bytes), Streamed(s, bytes))
    ensures BodyLeft(s) <= |bytes| ==>
      var l := AfterBody(s, to);
      var out := WholeBody(s, to, bytes[..BodyLeft(s)]);
      var rest := bytes[BodyLeft(s)..];
      if Closing(l.p.meta) then rest == "" && Run(cfg, s, bytes) == Done(out + Trailer(l.p.meta))
      else LiveInv(l) && Run(cfg, s, bytes) == Prefix(out, Run(cfg, l, rest))
  {
    var n := BodyLeft(s);
    if n > |bytes| {
      MidBodyInv(s, to, bytes);
      BodyGrows(cfg, s, to, bytes);
    } else if n == 0 {
      RunEmptyBody(cfg, s, to, bytes);
      assert bytes[n..] == bytes && bytes[..n] == "";
    } else {
      assert bytes == bytes[..n] + bytes[n..];
      BodyCompletes(cfg, s, to, bytes[..n]);
      RunSplit(cfg, s, bytes[..n], bytes[n..]);
    }
  }

  /** The empty body of the last chunk is emitted without consuming a byte. */
  lemma RunEmptyBody(cfg: Config, s: Live, to: State, bytes: string)
    requires LiveInv(s) && AtBody(s, to) && BodyLeft(s) == 0 && bytes != []
    ensures to == CB && LiveInv(AfterBody(s, to)) && !Closing(AfterBody(s, to).p.meta)
    ensures WholeBody(s, to, "") == [Tok(T_CHUNK_BODY, "")]
    ensures Run(cfg, s, bytes) == Prefix([Tok(T_CHUNK_BODY, "")], Run(cfg, AfterBody(s, to), bytes))
  {
    var l := AfterBody(s, to);
    var c, rest := bytes[0], bytes[1..];
    assert OpenText(s, to) + "" == "";
    assert bytes == [c] + rest;
    RunSplit(cfg, l, [c], rest);
    ThenPrefix(cfg, [Tok(T_CHUNK_BODY, "")], Run(cfg, l, [c]), rest);
    assert Step(cfg, s, c) == BodyStep(cfg, s, c, to);
  }

  /** A streamed body stays one until its last byte is in. */
  lemma StreamContinues(cfg: Config, s: Live, bytes: string)
    requires LiveInv(s) && s.p.meta == M_STR && Run(cfg, s, bytes).Go?
    ensures var l := Run(cfg, s, bytes).s;
      l.p.meta == M_STR && l.p.state == (if bytes == "" then s.p.state else BD) && l.pos == s.pos && l.kind == T_NONE
    ensures Run(cfg, s, bytes).out == Parts(bytes)
  {
    if bytes != [] {
      BodyOutcome(cfg, s, BD, bytes);
    }
  }

  // ------------------------------------------------------------------ reads

  function Flatten(pieces: seq<string>): string {
    if pieces == [] then "" else pieces[0] + Flatten(pieces[1..])
  }

  /** A token other than a body may be cut by the end of the input only while it is short enough. */
  predicate TooLong(cfg: Config, s: Live) {
    s.kind != T_CHUNK_BODY && s.kind != T_BODY && |s.text| > cfg.tokenMax
  }

  /** The whole session of one message: each read is consumed, then the unfinished token is measured. */
  function Session(cfg: Config, s: Live, pieces: seq<string>): (r: Result)
    requires LiveInv(s)
    ensures r.Go? ==> LiveInv(r.s)
    decreases |pieces|
  {
    if pieces == [] then Go(s, [])
    else
      match Run(cfg, s, pieces[0])
      case Go(l, o) => if TooLong(cfg, l) then Halt(o + [REJECT]) else Prefix(o, Session(cfg, l, pieces[1..]))
      case Done(o) => if Flatten(pieces[1..]) == "" then Done(o) else Outside
      case r => r
  }

  /** What the buffer holds after a read that ended in s, having held `used` bytes: an unfinished chunk is
      moved to the body start, a streamed body leaves nothing behind it, and otherwise nothing is given back. */
  function UsedAfter(s: Live, used: nat): nat {
    if s.p.state == CB then s.pos + |s.text|
    else if s.p.state == BD && s.p.meta == M_STR then s.pos
    else used
  }

  function Least(a: nat, b: nat): nat {
    if a < b then a else b
  }

  /** How much of what has arrived one read takes: no more than the buffer has free. */
  function Take(cfg: Config, used: nat, arrivals: seq<string>): (n: nat)
    requires arrivals != []
    ensures n <= |arrivals[0]| && (arrivals[0] != "" && used < cfg.bufMax ==> 0 < n && used + n <= cfg.bufMax)
  {
    if used < cfg.bufMax then Least(|arrivals[0]|, cfg.bufMax - used) else 0
  }

  /** What is left for later reads. */
  function Left(arrivals: seq<string>, n: nat): (rest: seq<string>)
    requires arrivals != [] && n <= |arrivals[0]|
    ensures Flatten(arrivals) == arrivals[0][..n] + Flatten(rest)
  {
    var rest := [arrivals[0][n..]] + arrivals[1..];
    assert rest[1..] == arrivals[1..];
    assert arrivals[0] == arrivals[0][..n] + arrivals[0][n..];
    assert arrivals[0][..n] + arrivals[0][n..] + Flatten(arrivals[1..]) ==
      arrivals[0][..n] + (arrivals[0][n..] + Flatten(arrivals[1..]));
    rest
  }

  /** The reads that are made of what arrives, with `used` bytes in the buffer: each takes what has arrived, or as
      much of it as the buffer has free, and the rest is left for the next one. No read is made into a full
      buffer. What is left behind the end of the message comes last. */
  function Reads(cfg: Config, s: Live, used: nat, arrivals: seq<string>): seq<string>
    requires LiveInv(s)
    decreases |Flatten(arrivals)|, |arrivals|
  {
    if arrivals == [] then []
    else if arrivals[0] == "" then Reads(cfg, s, used, arrivals[1..])
    else if used >= cfg.bufMax then []
    else
      var n := Take(cfg, used, arrivals);
      var r := Run(cfg, s, arrivals[0][..n]);
      [arrivals[0][..n]] +
      if r.Go? && !TooLong(cfg, r.s) then Reads(cfg, r.s, UsedAfter(r.s, used + n), Left(arrivals, n))
      else Left(arrivals, n)
  }

  /** Up to the end of the message, the buffer is never full when a read is due. */
  predicate Room(cfg: Config, s: Live, used: nat, arrivals: seq<string>)
    requires LiveInv(s)
    decreases |Flatten(arrivals)|, |arrivals|
  {
    if arrivals == [] then true
    else if arrivals[0] == "" then Room(cfg, s, used, arrivals[1..])
    else
      && used < cfg.bufMax
      && var n := Take(cfg, used, arrivals);
         var r := Run(cfg, s, arrivals[0][..n]);
         r.Go? && !TooLong(cfg, r.s) ==> Room(cfg, r.s, UsedAfter(r.s, used + n), Left(arrivals, n))
  }

  /** A streamed body of any length, however it arrives, needs one free byte behind the body start. */
  lemma {:induction false} StreamedRoom(cfg: Config, s: Live, arrivals: seq<string>)
    requires LiveInv(s) && s.p.meta == M_STR && s.pos < cfg.bufMax
    ensures Room(cfg, s, s.pos, arrivals)
    decreases |Flatten(arrivals)|, |arrivals|
  {
    if arrivals == [] {
    } else if arrivals[0] == "" {
      StreamedRoom(cfg, s, arrivals[1..]);
    } else {
      var n := Take(cfg, s.pos, arrivals);
      var r := Run(cfg, s, arrivals[0][..n]);
      if r.Go? {
        StreamContinues(cfg, s, arrivals[0][..n]);
        StreamedRoom(cfg, r.s, Left(arrivals, n));
      }
    }
  }

  /** reads == Reads(cfg, s, used, arrivals) and room <==> Room(cfg, s, used, arrivals), kept folded. */
  ghost predicate Plan(cfg: Config, s: Live, used: nat, arrivals: seq<string>, made: seq<string>, room: bool) {
    && LiveInv(s)
    && forall x :: Peek(x) && x == s ==>
        made == Reads(cfg, x, used, arrivals) && (Room(cfg, x, used, arrivals) <==> room)
  }

  lemma ReadsStep(cfg: Config, s: Live, used: nat, arrivals: seq<string>, n: nat, piece: string)
    requires LiveInv(s) && arrivals != [] && arrivals[0] != "" && used < cfg.bufMax
    requires n == Take(cfg, used, arrivals) && piece == arrivals[0][..n]
    ensures var r := Run(cfg, s, piece);
      if r.Go? && !TooLong(cfg, r.s) then
        var next := UsedAfter(r.s, used + n);
        && Reads(cfg, s, used, arrivals) == [piece] + Reads(cfg, r.s, next, Left(arrivals, n))
        && (Room(cfg, s, used, arrivals) <==> Room(cfg, r.s, next, Left(arrivals, n)))
      else Reads(cfg, s, used, arrivals) == [piece] + Left(arrivals, n) && Room(cfg, s, used, arrivals)
  {
  }

  lemma PlanStep(cfg: Config, s: Live, used: nat, arrivals: seq<string>, n: nat, made: seq<string>, room: bool)
    requires Plan(cfg, s, used, arrivals, made, room) && arrivals != [] && arrivals[0] != "" && used < cfg.bufMax
    requires n == Take(cfg, used, arrivals)
    ensures made != [] && made[0] == arrivals[0][..n]
    ensures var r := Run(cfg, s, made[0]);
      if r.Go? && !TooLong(cfg, r.s) then
        Plan(cfg, r.s, UsedAfter(r.s, used + n), Left(arrivals, n), made[1..], room)
      else room
  {
    assert made == Reads(cfg, s, used, arrivals) && (Room(cfg, s, used, arrivals) <==> room) by { assert Peek(s); }
    ReadsStep(cfg, s, used, arrivals, n, arrivals[0][..n]);
  }

  lemma PlanSkips(cfg: Config, s: Live, used: nat, arrivals: seq<string>, made: seq<string>, room: bool)
    requires Plan(cfg, s, used, arrivals, made, room) && arrivals != [] && arrivals[0] == ""
    ensures Plan(cfg, s, used, arrivals[1..], made, room)
  {
    assert Peek(s);
  }

  lemma PlanStops(cfg: Config, s: Live, used: nat, arrivals: seq<string>, made: seq<string>, room: bool)
    requires Plan(cfg, s, used, arrivals, made, room)
    requires arrivals != [] ==> arrivals[0] != "" && used >= cfg.bufMax
    ensures made == [] && (room <==> arrivals == [])
  {
    assert Peek(s);
  }

  /** A session goes on with further reads where it stopped. */
  lemma {:induction false} SessionSplit(cfg: Config, s: Live, a: seq<string>, b: seq<string>)
    requires LiveInv(s) && Session(cfg, s, a).Go?
    ensures Session(cfg, s, a + b) == Prefix(Session(cfg, s, a).out, Session(cfg, Session(cfg, s, a).s, b))
    decreases |a|
  {
    if a == [] {
      assert a + b == b;
      PrefixNil(Session(cfg, s, b));
    } else {
      assert (a + b)[0] == a[0] && (a + b)[1..] == a[1..] + b;
      var r := Run(cfg, s, a[0]);
      SessionSplit(cfg, r.s, a[1..], b);
      var t := Session(cfg, r.s, a[1..]);
      PrefixPrefix(r.out, t.out, Session(cfg, t.s, b));
    }
  }

  /** Every unfinished token along the way is within the limit. */
  predicate TokensFit(cfg: Config, s: Live, input: string)
    requires LiveInv(s)
  {
    forall n :: 0 <= n <= |input| ==> var r := Run(cfg, s, input[..n]); r.Go? ==> !TooLong(cfg, r.s)
  }

  lemma FitTail(cfg: Config, s: Live, a: string, b: string)
    requires LiveInv(s) && TokensFit(cfg, s, a + b) && Run(cfg, s, a).Go?
    ensures !TooLong(cfg, Run(cfg, s, a).s)
    ensures TokensFit(cfg, Run(cfg, s, a).s, b)
  {
    assert (a + b)[..|a|] == a;
    var l := Run(cfg, s, a).s;
    forall n | 0 <= n <= |b| && Run(cfg, l, b[..n]).Go?
      ensures !TooLong(cfg, Run(cfg, l, b[..n]).s)
    {
      assert (a + b)[..|a| + n] == a + b[..n];
      RunSplit(cfg, s, a, b[..n]);
    }
  }

  lemma {:induction false} FittingReadsAgree(cfg: Config, s: Live, pieces: seq<string>)
    requires LiveInv(s) && TokensFit(cfg, s, Flatten(pieces))
    ensures Session(cfg, s, pieces) == Run(cfg, s, Flatten(pieces))
    decreases |pieces|
  {
    if pieces != [] {
      var a, b := pieces[0], Flatten(pieces[1..]);
      var r := Run(cfg, s, a);
      RunSplit(cfg, s, a, b);
      if r.Go? {
        FitTail(cfg, s, a, b);
        FittingReadsAgree(cfg, r.s, pieces[1..]);
      }
    }
  }

  lemma LongTokenIsRejected(cfg: Config, s: Live, a: string, b: string)
    requires LiveInv(s) && Run(cfg, s, a).Go? && TooLong(cfg, Run(cfg, s, a).s)
    ensures Session(cfg, s, [a, b]).Halt? && Flatten([a, b]) == a + b
  {
    assert [a, b][1..] == [b];
    assert Flatten([b]) == b + Flatten([b][1..]);
  }

  /** A cut inside a token that is too long changes the outcome. */
  lemma UnfitReadsDiffer(cfg: Config, s: Live, input: string) returns (pieces: seq<string>)
    requires LiveInv(s) && !TokensFit(cfg, s, input)
    ensures Flatten(pieces) == input && Session(cfg, s, pieces).Halt?
  {
    var n :| 0 <= n <= |input| && Run(cfg, s, input[..n]).Go? && TooLong(cfg, Run(cfg, s, input[..n]).s);
    pieces := [input[..n], input[n..]];
    LongTokenIsRejected(cfg, s, input[..n], input[n..]);
    assert input[..n] + input[n..] == input;
  }

  /** Read-split invariance.  For an input that is accepted so far, every way of cutting it into reads
      gives the same tokens exactly when no unfinished token ever exceeds request_token_max_len. */
  lemma ReadSplitInvariance(cfg: Config, s: Live, input: string)
    requires LiveInv(s) && (Run(cfg, s, input).Go? || Run(cfg, s, input).Done?)
    ensures (forall pieces :: Flatten(pieces) == input ==> Session(cfg, s, pieces) == Run(cfg, s, input))
       <==> TokensFit(cfg, s, input)
  {
    if TokensFit(cfg, s, input) {
      forall pieces | Flatten(pieces) == input
        ensures Session(cfg, s, pieces) == Run(cfg, s, input)
      {
        FittingReadsAgree(cfg, s, pieces);
      }
    } else {
      var pieces := UnfitReadsDiffer(cfg, s, input);
    }
  }

  /** Every emitted token other than a body is within request_token_max_len. */
  predicate Short(cfg: Config, out: seq<Atom>) {
    forall a :: a in out && a.Tok? && a.kind != T_CHUNK_BODY && a.kind != T_BODY ==> |a.text| <= cfg.tokenMax
  }

  lemma LongHead(cfg: Config, s: Live, c: char, to: State)
    requires LiveInv(s) && to == Move(s.p.state, s.p.meta, CType(c)) && to != CB && to != BD
    ensures LongCase(cfg, s, HeadStep(cfg, s, c, to))
  {
    var r := HeadStep(cfg, s, c, to);
    if r.Go? && TooLong(cfg, s) && Emits(s.p.state, to) {
      assert Tok(s.kind, s.text) in r.out;
    }
  }

  /** A long token stays long or shows in the output; a step never starts with one. */
  predicate LongCase(cfg: Config, s: Live, r: Result) {
    && (r.Go? ==>
          && (TooLong(cfg, s) ==> !Short(cfg, r.out) || TooLong(cfg, r.s))
          && (!Short(cfg, r.out) ==> TooLong(cfg, s)))
    && (r.Done? ==> !TooLong(cfg, s) && Short(cfg, r.out))
  }

  lemma EmptyBodyStep(cfg: Config, s: Live, c: char, to: State)
    requires LiveInv(s) && to == Move(s.p.state, s.p.meta, CType(c)) && (to == CB || to == BD) && BodyLeft(s) == 0
    ensures LiveInv(AfterBody(s, to))
      && Step(cfg, s, c) == Prefix([Tok(T_CHUNK_BODY, "")], Step(cfg, AfterBody(s, to), c))
  {
    BodyFacts(s, to, CType(c));
    RunOne(cfg, AfterBody(s, to), c);
  }

  /** An empty chunk in front changes nothing about long tokens. */
  lemma LongPrefix(cfg: Config, s: Live, l: Live, r: Result)
    requires LongCase(cfg, l, r) && !TooLong(cfg, s) && !TooLong(cfg, l)
    ensures LongCase(cfg, s, Prefix([Tok(T_CHUNK_BODY, "")], r))
  {
    if r.Go? || r.Done? {
      ShortJoin(cfg, [Tok(T_CHUNK_BODY, "")], r.out);
    }
  }

  lemma {:induction false} LongStep(cfg: Config, s: Live, c: char)
    requires LiveInv(s)
    ensures LongCase(cfg, s, Step(cfg, s, c))
    decreases Rank(s)
  {
    var to := Move(s.p.state, s.p.meta, CType(c));
    if to == CB || to == BD {
      BodyFacts(s, to, CType(c));
      if BodyLeft(s) == 0 {
        var l := AfterBody(s, to);
        LongStep(cfg, l, c);
        EmptyBodyStep(cfg, s, c, to);
        LongPrefix(cfg, s, l, Step(cfg, l, c));
      } else {
        BodyByte(cfg, s, to, c);
      }
    } else {
      LongHead(cfg, s, c, to);
    }
  }

  /** A token that is ever too long is emitted as a token that is too long. */
  lemma {:induction false} LongTokenShows(cfg: Config, s: Live, input: string)
    requires LiveInv(s) && Run(cfg, s, input).Done? && TooLong(cfg, s)
    ensures !Short(cfg, Run(cfg, s, input).out)
    decreases |input|
  {
    LongStep(cfg, s, input[0]);
    var r := Step(cfg, s, input[0]);
    if Short(cfg, r.out) {
      LongTokenShows(cfg, r.s, input[1..]);
    }
  }

  lemma FitFirst(cfg: Config, s: Live, input: string)
    requires LiveInv(s) && input != [] && Step(cfg, s, input[0]).Go?
    ensures TokensFit(cfg, s, input) <==> !TooLong(cfg, s) && TokensFit(cfg, Step(cfg, s, input[0]).s, input[1..])
  {
    var c, rest := input[0], input[1..];
    var l := Step(cfg, s, c).s;
    assert Run(cfg, s, [c]) == Go(l, Step(cfg, s, c).out) by {
      assert [c][1..] == [];
    }
    assert input == [c] + rest;
    if TokensFit(cfg, s, input) {
      assert input[..0] == [];
      FitTail(cfg, s, [c], rest);
    }
    if !TooLong(cfg, s) && TokensFit(cfg, l, rest) {
      FitLater(cfg, s, [c], rest, l);
    }
  }

  lemma FitLater(cfg: Config, s: Live, a: string, rest: string, l: Live)
    requires LiveInv(s) && |a| == 1 && Run(cfg, s, a).Go? && Run(cfg, s, a).s == l
    requires !TooLong(cfg, s) && TokensFit(cfg, l, rest)
    ensures TokensFit(cfg, s, a + rest)
  {
    var input := a + rest;
    forall n | 0 <= n <= |input| && Run(cfg, s, input[..n]).Go?
      ensures !TooLong(cfg, Run(cfg, s, input[..n]).s)
    {
      if n == 0 {
        assert input[..0] == [];
      } else {
        assert input[..n] == a + rest[..n - 1];
        RunSplit(cfg, s, a, rest[..n - 1]);
      }
    }
  }

  lemma ShortJoin(cfg: Config, a: seq<Atom>, b: seq<Atom>)
    ensures Short(cfg, a + b) <==> Short(cfg, a) && Short(cfg, b)
  {
    assert forall x :: x in a + b <==> x in a || x in b;
  }

  lemma FitDone(cfg: Config, s: Live, input: string)
    requires LiveInv(s) && |input| == 1 && Step(cfg, s, input[0]).Done?
    ensures TokensFit(cfg, s, input) <==> !TooLong(cfg, s)
  {
    assert input[..1] == input && input[..0] == [] && input[1..] == [];
    assert Run(cfg, s, input[..0]) == Go(s, []);
    assert Run(cfg, s, input) == Step(cfg, s, input[0]);
    forall n | 0 <= n <= |input|
      ensures Run(cfg, s, input[..n]).Go? <==> n == 0
    {
      assert n == 0 || n == 1;
    }
  }

  lemma {:induction false} FitIffShort(cfg: Config, s: Live, input: string)
    requires LiveInv(s) && Run(cfg, s, input).Done?
    ensures TokensFit(cfg, s, input) <==> Short(cfg, Run(cfg, s, input).out)
    decreases |input|
  {
    var r := Step(cfg, s, input[0]);
    LongStep(cfg, s, input[0]);
    if r.Done? {
      FitDone(cfg, s, input);
    } else {
      var t := Run(cfg, r.s, input[1..]);
      FitFirst(cfg, s, input);
      FitIffShort(cfg, r.s, input[1..]);
      ShortJoin(cfg, r.out, t.out);
      assert Run(cfg, s, input) == Prefix(r.out, t);
      if TooLong(cfg, r.s) {
        LongTokenShows(cfg, r.s, input[1..]);
      }
    }
  }

  /** Read-split invariance for complete messages: every way of cutting the message into reads gives the
      same tokens exactly when every token it carries outside bodies is within request_token_max_len. */
  lemma MessageSplitInvariance(cfg: Config, input: string)
    requires Run(cfg, FRESH, input).Done?
    ensures (forall pieces :: Flatten(pieces) == input ==> Session(cfg, FRESH, pieces) == Run(cfg, FRESH, input))
       <==> Short(cfg, Run(cfg, FRESH, input).out)
  {
    ReadSplitInvariance(cfg, FRESH, input);
    FitIffShort(cfg, FRESH, input);
  }
}
