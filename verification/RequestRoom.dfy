/** How much of the buffer a request takes as it arrives, told from its layout alone. */
module RequestRoom {
  import opened Folding
  import opened HttpTables
  import opened TokenSpec
  import opened ReadRoom
  import opened HttpMessage
  import opened HttpChunks
  import opened HttpRequest

  // ------------------------------------------------------------------ the layout of a request

  /** How many data bytes of a chunk lie in front of offset k, when k is inside that data and not at one of its
      ends; 0 for any other k. */
  function DataPart(cs: seq<Chunk>, k: nat): (p: nat)
    ensures p <= k
  {
    if cs == [] then 0
    else
      var size, all := |EncodeSizeLine(cs[0].line)|, |EncodeChunk(cs[0])|;
      if k >= all then DataPart(cs[1..], k - all)
      else if size < k < size + |cs[0].data| then k - size
      else 0
  }

  function BodyStart(r: Request): nat {
    |EncodeHead(r)| + 2
  }

  /** What the buffer holds when the first k bytes of the request were read, of the `used` bytes it held then: an
      unfinished chunk is moved to the body start, a streamed body leaves nothing behind it, and otherwise nothing
      is given back. */
  function UsedAt(cfg: Config, r: Request, k: nat, used: nat): nat {
    var at := BodyStart(r);
    if k <= at then used
    else
      match r.body
      case Plain(_) => if Whole(cfg, r) then used else at
      case InChunks(cs, _) => if DataPart(cs, k - at) > 0 then at + DataPart(cs, k - at) else used
  }

  /** With k bytes of the request read and `used` bytes in the buffer: no read before the end of the request leaves
      the buffer full. */
  predicate Fits(cfg: Config, r: Request, k: nat, used: nat, arrivals: seq<string>)
    decreases |Flatten(arrivals)|, |arrivals|
  {
    if arrivals == [] then true
    else if arrivals[0] == "" then Fits(cfg, r, k, used, arrivals[1..])
    else
      && used < cfg.bufMax
      && var n := Take(cfg, used, arrivals);
         k + n < |Encode(r)| ==> Fits(cfg, r, k + n, UsedAt(cfg, r, k + n, used + n), Left(arrivals, n))
  }

  // ------------------------------------------------------------------ what a read gives back

  /** After a read: part bytes of a chunk are moved to the body start, or nothing is given back. */
  predicate GivesBack(r: Result, at: nat, part: nat) {
    && r.Go?
    && if part > 0 then r.s.p.state == CB && |r.s.text| == part && r.s.pos == at
       else r.s.p.state != CB && !(r.s.p.state == BD && r.s.p.meta == M_STR)
  }

  /** The same of a run, kept folded. */
  ghost predicate Gives(cfg: Config, s: Live, a: string, at: nat, part: nat) {
    forall x :: Peek(x) && x == s ==> LiveInv(x) && GivesBack(Run(cfg, x, a), at, part)
  }

  lemma GivesIs(cfg: Config, s: Live, a: string, at: nat, part: nat)
    requires Gives(cfg, s, a, at, part)
    ensures LiveInv(s) && GivesBack(Run(cfg, s, a), at, part)
  {
    assert Peek(s);
  }

  lemma GivesSeq(cfg: Config, s: Live, a: string, l: Live, o: seq<Atom>, b: string, at: nat, part: nat)
    requires Leads(cfg, s, a, l, o) && Gives(cfg, l, b, at, part)
    ensures Gives(cfg, s, a + b, at, part)
  {
    LeadsIs(cfg, s, a, l, o);
    GivesIs(cfg, l, b, at, part);
    RunGo(cfg, s, a, b);
  }

  /** Whoever is inside chunk data stays there or hands out a chunk. */
  lemma StaysInData(cfg: Config, s: Live, b: string)
    requires LiveInv(s) && s.p.state == CB && Run(cfg, s, b).Go? && Run(cfg, s, b).out == []
    ensures Run(cfg, s, b).s.p.state == CB
  {
    if b != "" {
      BodyOutcome(cfg, s, CB, b);
    }
  }

  /** On the way to a state outside data, without a token, nothing is given back. */
  lemma GivesBefore(cfg: Config, s: Live, a: string, b: string, l: Live, at: nat)
    requires Leads(cfg, s, a + b, l, []) && l.p.state != CB && l.p.meta != M_STR
    ensures Gives(cfg, s, a, at, 0)
  {
    LeadsIs(cfg, s, a + b, l, []);
    RunSplit(cfg, s, a, b);
    var r := Run(cfg, s, a);
    assert r.Go?;
    if r.s.p.state == CB {
      StaysInData(cfg, r.s, b);
    } else if r.s.p.meta == M_STR {
      StreamContinues(cfg, r.s, b);
    }
  }

  /** Nothing is given back while the head is read. */
  lemma GivesInHead(cfg: Config, a: string, b: string, l: Live, o: seq<Atom>, at: nat)
    requires Leads(cfg, FRESH, a + b, l, o) && l.p.state < HN
    ensures Gives(cfg, FRESH, a, at, 0)
  {
    LeadsIs(cfg, FRESH, a + b, l, o);
    RunSplit(cfg, FRESH, a, b);
    var r := Run(cfg, FRESH, a);
    assert r.Go?;
    RunPos(cfg, r.s, b);
  }

  // ------------------------------------------------------------------ beginnings of a chunked body

  lemma PartOfChunk(cfg: Config, st: State, count: nat, at: nat, c: Chunk, k: nat)
    requires SizeState(st, count) && GoodChunk(c)
    requires |EncodeSizeLine(c.line)| < k < |EncodeSizeLine(c.line)| + |c.data|
    ensures Gives(cfg, ChunkStart(st, count, at), EncodeChunk(c)[..k], at, k - |EncodeSizeLine(c.line)|)
  {
    var line, s := EncodeSizeLine(c.line), ChunkStart(st, count, at);
    var l, part := AfterSize(CN, count, at, |c.data|), c.data[..k - |line|];
    SizeLineRun(cfg, st, count, at, c.line, |c.data|);
    LeadsIs(cfg, s, line, l, []);
    assert EncodeChunk(c)[..k] == line + part;
    BodyGrows(cfg, l, CB, part);
    assert Gives(cfg, l, part, at, |part|);
    GivesSeq(cfg, s, line, l, [], part, at, |part|);
  }

  lemma PartOfLine(cfg: Config, st: State, count: nat, at: nat, z: SizeLine, size: nat, k: nat)
    requires SizeState(st, count) && GoodSizeLine(z, size) && k <= |EncodeSizeLine(z)|
    ensures Gives(cfg, ChunkStart(st, count, at), EncodeSizeLine(z)[..k], at, 0)
  {
    var line := EncodeSizeLine(z);
    SizeLineRun(cfg, st, count, at, z, size);
    assert line[..k] + line[k..] == line;
    GivesBefore(cfg, ChunkStart(st, count, at), line[..k], line[k..], AfterSize(CN, count, at, size), at);
  }

  lemma BehindData(cfg: Config, st: State, count: nat, at: nat, c: Chunk, k: nat)
    requires SizeState(st, count) && GoodChunk(c) && k <= 2
    ensures Gives(cfg, ChunkStart(st, count, at), EncodeSizeLine(c.line) + c.data + "\r\n"[..k], at, 0)
  {
    var s, m, l := ChunkStart(st, count, at), AfterSize(CN, count, at, |c.data|), AfterData(CD, M_CBD, count, at);
    var o := [Tok(T_CHUNK_BODY, c.data)];
    SizeLineRun(cfg, st, count, at, c.line, |c.data|);
    DataRun(cfg, count, at, c.data);
    LeadsSeq(cfg, s, EncodeSizeLine(c.line), m, [], c.data, l, o);
    DataEnd(cfg, count, at);
    assert "\r\n"[..k] + "\r\n"[k..] == "\r\n";
    GivesBefore(cfg, l, "\r\n"[..k], "\r\n"[k..], ChunkStart(C2, count, at), at);
    GivesSeq(cfg, s, EncodeSizeLine(c.line) + c.data, l, [] + o, "\r\n"[..k], at, 0);
  }

  lemma BeginningOfChunk(cfg: Config, st: State, count: nat, at: nat, cs: seq<Chunk>, k: nat)
    requires SizeState(st, count) && cs != [] && GoodChunk(cs[0]) && k < |EncodeChunk(cs[0])|
    ensures Gives(cfg, ChunkStart(st, count, at), EncodeChunk(cs[0])[..k], at, DataPart(cs, k))
  {
    var c := cs[0];
    var line, text := EncodeSizeLine(c.line), EncodeChunk(c);
    if k <= |line| {
      assert text[..k] == line[..k];
      PartOfLine(cfg, st, count, at, c.line, |c.data|, k);
    } else if k < |line| + |c.data| {
      PartOfChunk(cfg, st, count, at, c, k);
    } else {
      var j := k - |line| - |c.data|;
      assert text[..k] == line + c.data + "\r\n"[..j];
      BehindData(cfg, st, count, at, c, j);
    }
  }

  lemma BeginningOfLast(cfg: Config, st: State, count: nat, at: nat, last: SizeLine, k: nat)
    requires SizeState(st, count) && GoodSizeLine(last, 0) && k < |EncodeSizeLine(last)| + 2
    ensures Gives(cfg, ChunkStart(st, count, at), (EncodeSizeLine(last) + "\r\n")[..k], at, 0)
  {
    var line, s := EncodeSizeLine(last), ChunkStart(st, count, at);
    if k <= |line| {
      assert (line + "\r\n")[..k] == line[..k];
      PartOfLine(cfg, st, count, at, last, 0, k);
    } else {
      assert (line + "\r\n")[..k] == line + "\r";
      SizeLineRun(cfg, st, count, at, last, 0);
      LastReturn(cfg, count, at);
      GivesSeq(cfg, s, line, AfterSize(CN, count, at, 0), [], "\r", at, 0);
    }
  }

  lemma LastReturn(cfg: Config, count: nat, at: nat)
    requires count < INT16_MAX
    ensures Gives(cfg, AfterSize(CN, count, at, 0), "\r", at, 0)
  {
    var l, s := AfterSize(CN, count, at, 0), AfterData(CD, M_LST, count, at);
    RunEmptyBody(cfg, l, CB, "\r");
    StepTo(cfg, s, '\r', C1);
    RunOne(cfg, s, '\r');
  }

  lemma BehindChunk(cfg: Config, st: State, count: nat, at: nat, c: Chunk, rest: string, part: nat)
    requires SizeState(st, count) && GoodChunk(c) && Gives(cfg, ChunkStart(C2, count, at), rest, at, part)
    ensures Gives(cfg, ChunkStart(st, count, at), EncodeChunk(c) + rest, at, part)
  {
    ChunkRun(cfg, st, count, at, c);
    GivesSeq(cfg, ChunkStart(st, count, at), EncodeChunk(c), ChunkStart(C2, count, at), [Tok(T_CHUNK_BODY, c.data)],
        rest,
             at, part);
  }

  lemma InFirstChunk(cfg: Config, st: State, count: nat, at: nat, cs: seq<Chunk>, rest: string, k: nat)
    requires SizeState(st, count) && cs != [] && GoodChunk(cs[0]) && k < |EncodeChunk(cs[0])|
    ensures Gives(cfg, ChunkStart(st, count, at), (EncodeChunk(cs[0]) + rest)[..k], at, DataPart(cs, k))
  {
    assert (EncodeChunk(cs[0]) + rest)[..k] == EncodeChunk(cs[0])[..k];
    BeginningOfChunk(cfg, st, count, at, cs, k);
  }

  lemma InLaterChunk(cfg: Config, st: State, count: nat, at: nat, cs: seq<Chunk>, rest: string, k: nat, j: nat)
    requires SizeState(st, count) && cs != [] && GoodChunk(cs[0]) && k == |EncodeChunk(cs[0])| + j && j <= |rest|
    requires Gives(cfg, ChunkStart(C2, count, at), rest[..j], at, DataPart(cs[1..], j))
    ensures Gives(cfg, ChunkStart(st, count, at), (EncodeChunk(cs[0]) + rest)[..k], at, DataPart(cs, k))
  {
    assert (EncodeChunk(cs[0]) + rest)[..k] == EncodeChunk(cs[0]) + rest[..j];
    BehindChunk(cfg, st, count, at, cs[0], rest[..j], DataPart(cs[1..], j));
  }

  function ChunkText(cs: seq<Chunk>, last: SizeLine): string {
    EncodeChunks(cs) + (EncodeSizeLine(last) + "\r\n")
  }

  lemma ChunkTextSplit(cs: seq<Chunk>, last: SizeLine)
    ensures cs == [] ==> ChunkText(cs, last) == EncodeSizeLine(last) + "\r\n"
    ensures cs != [] ==> ChunkText(cs, last) == EncodeChunk(cs[0]) + ChunkText(cs[1..], last)
  {
  }

  lemma {:induction false} BeginningOfChunks(cfg: Config, st: State, count: nat, at: nat, cs: seq<Chunk>,
      last: SizeLine,
                                             k: nat)
    requires SizeState(st, count) && (forall i :: 0 <= i < |cs| ==> GoodChunk(cs[i])) && GoodSizeLine(last, 0)
    requires k < |ChunkText(cs, last)|
    ensures Gives(cfg, ChunkStart(st, count, at), ChunkText(cs, last)[..k], at, DataPart(cs, k))
    decreases |cs|
  {
    ChunkTextSplit(cs, last);
    if cs == [] {
      BeginningOfLast(cfg, st, count, at, last, k);
    } else if k < |EncodeChunk(cs[0])| {
      InFirstChunk(cfg, st, count, at, cs, ChunkText(cs[1..], last), k);
    } else {
      var j := k - |EncodeChunk(cs[0])|;
      BeginningOfChunks(cfg, C2, count, at, cs[1..], last, j);
      InLaterChunk(cfg, st, count, at, cs, ChunkText(cs[1..], last), k, j);
    }
  }

  // ------------------------------------------------------------------ beginnings of a request

  /** A well-formed request, kept folded. */
  ghost predicate Sound(cfg: Config, r: Request) {
    forall x :: Peek(x) && x == r ==> WellFormed(cfg, x) && ShortHead(cfg, x)
  }

  /** What is given back after the first k bytes. */
  ghost predicate GivesAt(cfg: Config, r: Request, k: nat, t: Result) {
    t.Go? && forall used :: UsedAfter(t.s, used) == UsedAt(cfg, r, k, used)
  }

  lemma InHeaders(cfg: Config, r: Request, k: nat)
    requires Sound(cfg, r) && k <= |EncodeHead(r)|
    ensures Gives(cfg, FRESH, EncodeHead(r)[..k], 0, 0)
  {
    assert Peek(r);
    var head := EncodeHead(r);
    HeadRun(cfg, r);
    assert head[..k] + head[k..] == head;
    GivesInHead(cfg, head[..k], head[k..], Between(HE, FramingOf(r), |r.headers|, |head|), HeadTokens(r), 0);
  }

  lemma InBlankLine(cfg: Config, r: Request)
    requires Sound(cfg, r)
    ensures Gives(cfg, FRESH, EncodeHead(r) + "\r", 0, 0)
  {
    assert Peek(r);
    var head, f, count := EncodeHead(r), FramingOf(r), |r.headers|;
    var s, l := Between(HE, f, count, |head|), Between(ER, f, count, |head| + 1);
    HeadRun(cfg, r);
    LeadsIs(cfg, FRESH, head, s, HeadTokens(r));
    BlankLineCr(cfg, f, count, |head|);
    LeadsStep(cfg, s, '\r', l, []);
    RunOne(cfg, s, '\r');
    GivesSeq(cfg, FRESH, head, s, HeadTokens(r), "\r", 0, 0);
  }

  lemma InHead(cfg: Config, r: Request, k: nat)
    requires Sound(cfg, r) && k < BodyStart(r)
    ensures Gives(cfg, FRESH, Encode(r)[..k], 0, 0)
  {
    var head := EncodeHead(r);
    if k <= |head| {
      assert Encode(r)[..k] == head[..k];
      InHeaders(cfg, r, k);
    } else {
      assert Encode(r)[..k] == head + "\r";
      InBlankLine(cfg, r);
    }
  }

  lemma InChunkedBody(cfg: Config, r: Request, k: nat)
    requires Sound(cfg, r) && r.body.InChunks? && BodyStart(r) <= k < |Encode(r)|
    ensures Gives(cfg, FRESH, Encode(r)[..k], BodyStart(r), DataPart(r.body.chunks, k - BodyStart(r)))
  {
    assert Peek(r);
    var head, at, o := EncodeHead(r) + "\r\n", BodyStart(r), HeadTokens(r) + HeadersEnd(M_ZER);
    var cs, last, j := r.body.chunks, r.body.last, k - at;
    var text := ChunkText(cs, last);
    HeadAndBlankLine(cfg, r, ChunkStart(HN, |r.headers|, at));
    assert EncodeBody(r.body) == text && Encode(r)[..k] == head + text[..j];
    BeginningOfChunks(cfg, HN, |r.headers|, at, cs, last, j);
    GivesSeq(cfg, FRESH, head, ChunkStart(HN, |r.headers|, at), o, text[..j], at, DataPart(cs, j));
  }

  lemma InPlainBody(cfg: Config, r: Request, k: nat)
    requires Sound(cfg, r) && r.body.Plain? && BodyStart(r) <= k < |Encode(r)|
    ensures GivesAt(cfg, r, k, Run(cfg, FRESH, Encode(r)[..k]))
  {
    assert Peek(r);
    var head, j := EncodeHead(r) + "\r\n", k - BodyStart(r);
    var l := AtBodyStart(cfg, FramingOf(r), |r.headers|, |EncodeHead(r)| + 1);
    HeadAndBlankLine(cfg, r, l);
    PartOfBody(cfg, head, l, HeadTokens(r) + HeadersEnd(l.p.meta), r.body.text[..j]);
    assert Encode(r)[..k] == head + r.body.text[..j];
  }

  /** Every proper beginning of a request leaves in the buffer what the layout says. */
  lemma BeginningGives(cfg: Config, r: Request, a: string)
    requires Sound(cfg, r) && a <= Encode(r) && |a| < |Encode(r)|
    ensures GivesAt(cfg, r, |a|, Run(cfg, FRESH, a))
  {
    var k := |a|;
    assert a == Encode(r)[..k];
    if k < BodyStart(r) {
      InHead(cfg, r, k);
      GivesIs(cfg, FRESH, a, 0, 0);
    } else if r.body.Plain? {
      InPlainBody(cfg, r, k);
    } else {
      InChunkedBody(cfg, r, k);
      GivesIs(cfg, FRESH, a, BodyStart(r), DataPart(r.body.chunks, k - BodyStart(r)));
    }
  }

  // ------------------------------------------------------------------ the whole request

  lemma SoundFits(cfg: Config, r: Request)
    requires Sound(cfg, r)
    ensures TokensFit(cfg, FRESH, Encode(r)) && Run(cfg, FRESH, Encode(r)) == Done(Tokens(cfg, r))
  {
    assert Peek(r);
    RequestTokens(cfg, r);
    TokensShort(cfg, r);
    FitByTokens(cfg, Encode(r), Tokens(cfg, r));
  }

  lemma FitByTokens(cfg: Config, input: string, out: seq<Atom>)
    requires Run(cfg, FRESH, input) == Done(out) && Short(cfg, out)
    ensures TokensFit(cfg, FRESH, input)
  {
    FitIffShort(cfg, FRESH, input);
  }

  lemma BeginningIsShort(cfg: Config, r: Request, a: string)
    requires Sound(cfg, r) && a <= Encode(r) && Run(cfg, FRESH, a).Go?
    ensures !TooLong(cfg, Run(cfg, FRESH, a).s)
  {
    SoundFits(cfg, r);
    var n := |a|;
    assert Encode(r)[..n] == a;
  }

  /** Reading a leads to s, kept folded. */
  ghost predicate Arrived(cfg: Config, a: string, s: Live) {
    LiveInv(s) && forall x: string :: Peek(x) && x == a ==> Run(cfg, FRESH, x).Go? && Run(cfg, FRESH, x).s == s
  }

  /** t == Run(cfg, s, piece), kept folded. */
  ghost predicate RunsTo(cfg: Config, s: Live, piece: string, t: Result) {
    && LiveInv(s) && (t.Go? ==> LiveInv(t.s))
    && forall x: Result :: Peek(x) && x == t ==> x == Run(cfg, s, piece)
  }

  lemma ReadOn(cfg: Config, a: string, s: Live, piece: string) returns (t: Result)
    requires Arrived(cfg, a, s)
    ensures RunsTo(cfg, s, piece, t) && (t.Go? <==> Run(cfg, FRESH, a + piece).Go?)
    ensures t.Go? ==> Run(cfg, FRESH, a + piece).s == t.s
    ensures t.Done? <==> Run(cfg, FRESH, a + piece).Done?
  {
    t := Run(cfg, s, piece);
    assert Peek(a);
    RunGo(cfg, FRESH, a, piece);
  }

  /** One read of the request: it ends the message, or leaves in the buffer what the layout says. */
  lemma OneRead(cfg: Config, r: Request, a: string, s: Live, piece: string) returns (t: Result)
    requires Sound(cfg, r) && Arrived(cfg, a, s) && a + piece <= Encode(r)
    ensures RunsTo(cfg, s, piece, t)
    ensures if |a + piece| == |Encode(r)| then t.Done?
      else GivesAt(cfg, r, |a + piece|, t) && !TooLong(cfg, t.s) && Arrived(cfg, a + piece, t.s)
  {
    t := ReadOn(cfg, a, s, piece);
    if |a + piece| == |Encode(r)| {
      assert a + piece == Encode(r);
      SoundFits(cfg, r);
    } else {
      BeginningGives(cfg, r, a + piece);
      BeginningIsShort(cfg, r, a + piece);
    }
  }

  lemma FitsStep(cfg: Config, r: Request, k: nat, used: nat, arrivals: seq<string>, n: nat)
    requires arrivals != [] && arrivals[0] != "" && used < cfg.bufMax && n == Take(cfg, used, arrivals)
    ensures Fits(cfg, r, k, used, arrivals) <==>
      (k + n < |Encode(r)| ==> Fits(cfg, r, k + n, UsedAt(cfg, r, k + n, used + n), Left(arrivals, n)))
  {
  }

  /** Room and layout agree, kept folded. */
  ghost predicate Agree(cfg: Config, r: Request, s: Live, k: nat, used: nat, arrivals: seq<string>) {
    && LiveInv(s)
    && forall x :: Peek(x) && x == arrivals ==> (Room(cfg, s, used, x) <==> Fits(cfg, r, k, used, x))
  }

  lemma AgreeStep(cfg: Config, r: Request, s: Live, k: nat, used: nat, arrivals: seq<string>, n: nat, t: Result)
    requires arrivals != [] && arrivals[0] != "" && used < cfg.bufMax && n == Take(cfg, used, arrivals)
    requires RunsTo(cfg, s, arrivals[0][..n], t)
    requires if k + n >= |Encode(r)| then t.Done?
      else
        && GivesAt(cfg, r, k + n, t) && !TooLong(cfg, t.s)
        && Agree(cfg, r, t.s, k + n, UsedAfter(t.s, used + n), Left(arrivals, n))
    ensures Agree(cfg, r, s, k, used, arrivals)
  {
    assert t == Run(cfg, s, arrivals[0][..n]) by { assert Peek(t); }
    ReadsStep(cfg, s, used, arrivals, n, arrivals[0][..n]);
    FitsStep(cfg, r, k, used, arrivals, n);
    if k + n < |Encode(r)| {
      var left := Left(arrivals, n);
      assert Peek(left);
    }
  }

  lemma AgreeSkips(cfg: Config, r: Request, s: Live, k: nat, used: nat, arrivals: seq<string>)
    requires LiveInv(s)
    requires arrivals != [] ==>
      if arrivals[0] == "" then Agree(cfg, r, s, k, used, arrivals[1..]) else used >= cfg.bufMax
    ensures Agree(cfg, r, s, k, used, arrivals)
  {
    if arrivals != [] {
      assert Peek(arrivals[1..]);
    }
  }

  lemma NextBytes(a: string, arrivals: seq<string>, n: nat, piece: string, input: string)
    requires a + Flatten(arrivals) == input && arrivals != [] && n <= |arrivals[0]| && piece == arrivals[0][..n]
    ensures a + piece <= input && a + piece + Flatten(Left(arrivals, n)) == input
    ensures |Flatten(Left(arrivals, n))| == |Flatten(arrivals)| - n
  {
    Assoc(a, piece, Flatten(Left(arrivals, n)));
  }

  lemma {:induction false} RoomAgrees(cfg: Config, r: Request, a: string, s: Live, used: nat, arrivals: seq<string>,
                                      input: string)
    requires Sound(cfg, r) && Arrived(cfg, a, s) && input == Encode(r) && a + Flatten(arrivals) == input
    ensures Agree(cfg, r, s, |a|, used, arrivals)
    decreases |Flatten(arrivals)|, |arrivals|
  {
    if arrivals != [] && arrivals[0] == "" {
      NextBytes(a, arrivals, 0, "", input);
      assert Flatten(arrivals) == Flatten(arrivals[1..]);
      RoomAgrees(cfg, r, a, s, used, arrivals[1..], input);
      AgreeSkips(cfg, r, s, |a|, used, arrivals);
    } else if arrivals == [] || used >= cfg.bufMax {
      AgreeSkips(cfg, r, s, |a|, used, arrivals);
    } else {
      var n := Take(cfg, used, arrivals);
      var piece := arrivals[0][..n];
      NextBytes(a, arrivals, n, piece, input);
      var t := OneRead(cfg, r, a, s, piece);
      if |a + piece| < |input| {
        RoomAgrees(cfg, r, a + piece, t.s, UsedAfter(t.s, used + n), Left(arrivals, n), input);
      }
      AgreeStep(cfg, r, s, |a|, used, arrivals, n, t);
    }
  }

  /** A request is read to its end, however it arrives, if and only if by its layout no read before the end leaves
      the buffer full. */
  lemma RoomIffFits(cfg: Config, r: Request, arrivals: seq<string>)
    requires WellFormed(cfg, r) && ShortHead(cfg, r) && Flatten(arrivals) == Encode(r)
    ensures Room(cfg, FRESH, 0, arrivals) <==> Fits(cfg, r, 0, 0, arrivals)
  {
    RoomAgrees(cfg, r, "", FRESH, 0, arrivals, Encode(r));
    assert Peek(arrivals);
  }

  // ------------------------------------------------------------------ bodies of known length

  /** No read gives anything back. */
  ghost predicate KeepsAll(cfg: Config, r: Request) {
    forall k: nat, used: nat :: UsedAt(cfg, r, k, used) == used
  }

  /** A request of which nothing is given back is received, however it arrives, if and only if it fits. */
  lemma {:induction false} KeptFitsIff(cfg: Config, r: Request, k: nat, arrivals: seq<string>)
    requires KeepsAll(cfg, r) && k + |Flatten(arrivals)| == |Encode(r)| && k <= cfg.bufMax && k < |Encode(r)|
    ensures Fits(cfg, r, k, k, arrivals) <==> |Encode(r)| <= cfg.bufMax
    decreases |Flatten(arrivals)|, |arrivals|
  {
    if arrivals[0] == "" {
      KeptFitsIff(cfg, r, k, arrivals[1..]);
    } else if k < cfg.bufMax {
      var n := Take(cfg, k, arrivals);
      FitsStep(cfg, r, k, k, arrivals, n);
      if k + n < |Encode(r)| {
        KeptFitsIff(cfg, r, k + n, Left(arrivals, n));
      }
    }
  }

  lemma StreamedIsLong(cfg: Config, r: Request)
    requires r.body.Plain? && !Whole(cfg, r) && BodyStart(r) <= cfg.bufMax
    ensures |Encode(r)| > cfg.bufMax
    ensures forall k: nat, used: nat :: UsedAt(cfg, r, k, used) == if k <= BodyStart(r) then used else BodyStart(r)
  {
  }

  /** A streamed body of any length is received, however it arrives, if and only if the buffer has a byte more than
      the head and its blank line. */
  lemma StreamedFitsIff(cfg: Config, r: Request, arrivals: seq<string>)
    requires r.body.Plain? && !Whole(cfg, r) && BodyStart(r) <= cfg.bufMax && Flatten(arrivals) == Encode(r)
    ensures Fits(cfg, r, 0, 0, arrivals) <==> BodyStart(r) < cfg.bufMax
  {
    StreamedIsLong(cfg, r);
    StreamedFits(cfg, r, BodyStart(r), |Encode(r)|, 0, 0, arrivals);
  }

  lemma {:induction false} StreamedFits(cfg: Config, r: Request, at: nat, len: nat, k: nat, used: nat,
                                        arrivals: seq<string>)
    requires len == |Encode(r)| > cfg.bufMax >= at && k + |Flatten(arrivals)| == len && k < len
    requires forall k: nat, used: nat :: UsedAt(cfg, r, k, used) == if k <= at then used else at
    requires used == (if k <= at then k else at) && (k > at ==> at < cfg.bufMax)
    ensures Fits(cfg, r, k, used, arrivals) <==> at < cfg.bufMax
    decreases |Flatten(arrivals)|, |arrivals|
  {
    if arrivals[0] == "" {
      StreamedFits(cfg, r, at, len, k, used, arrivals[1..]);
    } else if used < cfg.bufMax {
      var n := Take(cfg, used, arrivals);
      FitsStep(cfg, r, k, used, arrivals, n);
      if k + n < len {
        StreamedFits(cfg, r, at, len, k + n, UsedAt(cfg, r, k + n, used + n), Left(arrivals, n));
      }
    }
  }
}
