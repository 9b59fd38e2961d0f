/** Which chunked requests get through: only a read that ends inside chunk data gives space back. */
module ChunkRoom {
  import opened Folding
  import opened HttpTables
  import opened TokenSpec
  import opened HttpChunks
  import opened HttpRequest
  import opened RequestRoom
  import opened HttpTokenizer
  import opened HttpSession

  // ------------------------------------------------------------------ however the request arrives

  /** Offsets of the body from which the buffer can fill up: the start of the body, and the start of the data of
      a chunk of two bytes or more, since a read that ends inside that data brings the buffer back to there. */
  predicate Restarts(cs: seq<Chunk>, s: nat) {
    s == 0 || DataPart(cs, s + 1) == 1
  }

  /** The buffer filled up from s on ends behind the message, or inside the data of a chunk that starts later. */
  predicate LandsWell(cfg: Config, r: Request, s: nat)
    requires r.body.InChunks? && BodyStart(r) <= cfg.bufMax
  {
    var room := cfg.bufMax - BodyStart(r);
    s + room >= |EncodeBody(r.body)| || 0 < DataPart(r.body.chunks, s + room) < room
  }

  ghost predicate AlwaysFits(cfg: Config, r: Request)
    requires r.body.InChunks? && BodyStart(r) <= cfg.bufMax
  {
    forall s :: Restarts(r.body.chunks, s) ==> LandsWell(cfg, r, s)
  }

  /** Inside data every byte counts from the first one. */
  lemma {:induction false} PartFrom(cs: seq<Chunk>, k: nat, q: nat)
    requires 0 < q <= DataPart(cs, k)
    ensures DataPart(cs, k) < k && DataPart(cs, k - DataPart(cs, k) + q) == q && k < |EncodeChunks(cs)|
    decreases |cs|
  {
    if k >= |EncodeChunk(cs[0])| {
      PartFrom(cs[1..], k - |EncodeChunk(cs[0])|, q);
    }
  }

  /** The buffer holds the head, and what was read since s; inside data, since its first byte. */
  predicate Since(cfg: Config, r: Request, k: nat, used: nat, s: nat)
    requires r.body.InChunks?
  {
    var at, cs := BodyStart(r), r.body.chunks;
    if k < at then used == k && s == 0
    else
      && Restarts(cs, s) && s <= k - at && used == k - s
      && if DataPart(cs, k - at) > 0 then used == at + DataPart(cs, k - at) else used <= cfg.bufMax
  }

  lemma SinceStep(cfg: Config, r: Request, k: nat, used: nat, s: nat, n: nat) returns (s': nat)
    requires r.body.InChunks? && Since(cfg, r, k, used, s) && used + n <= cfg.bufMax
    ensures Since(cfg, r, k + n, UsedAt(cfg, r, k + n, used + n), s')
  {
    var at, cs, k' := BodyStart(r), r.body.chunks, k + n;
    s' := s;
    if k' > at && DataPart(cs, k' - at) > 0 {
      PartFrom(cs, k' - at, 1);
      s' := k' - at - DataPart(cs, k' - at);
    } else {
      assert UsedAt(cfg, r, k', used + n) == used + n;
      SinceOutside(cfg, r, k, used, s, n);
    }
  }

  lemma SinceOutside(cfg: Config, r: Request, k: nat, used: nat, s: nat, n: nat)
    requires r.body.InChunks? && Since(cfg, r, k, used, s) && used + n <= cfg.bufMax
    requires k + n > BodyStart(r) ==> DataPart(r.body.chunks, k + n - BodyStart(r)) == 0
    ensures Since(cfg, r, k + n, used + n, s)
  {
  }

  lemma NotFull(cfg: Config, r: Request, k: nat, used: nat, s: nat)
    requires r.body.InChunks? && BodyStart(r) <= cfg.bufMax && AlwaysFits(cfg, r) && Since(cfg, r, k, used, s)
    requires k < |Encode(r)|
    ensures used < cfg.bufMax
  {
    var at, cs := BodyStart(r), r.body.chunks;
    if k >= at {
      var room := cfg.bufMax - at;
      assert LandsWell(cfg, r, 0) && LandsWell(cfg, r, s);
      if 0 < room <= DataPart(cs, k - at) {
        PartFrom(cs, k - at, room);
      }
    }
  }

  /** A state of the buffer that can be reached; kept folded. */
  ghost predicate Reached(cfg: Config, r: Request, k: nat, used: nat) {
    r.body.InChunks? && exists s :: Since(cfg, r, k, used, s)
  }

  lemma ReachedStep(cfg: Config, r: Request, k: nat, used: nat, n: nat)
    requires Reached(cfg, r, k, used) && used + n <= cfg.bufMax
    ensures Reached(cfg, r, k + n, UsedAt(cfg, r, k + n, used + n))
  {
    var s :| Since(cfg, r, k, used, s);
    var s' := SinceStep(cfg, r, k, used, s, n);
  }

  lemma ReachedIsNotFull(cfg: Config, r: Request, k: nat, used: nat)
    requires Reached(cfg, r, k, used) && BodyStart(r) <= cfg.bufMax && AlwaysFits(cfg, r) && k < |Encode(r)|
    ensures used < cfg.bufMax
  {
    var s :| Since(cfg, r, k, used, s);
    NotFull(cfg, r, k, used, s);
  }

  lemma {:induction false} AlwaysFitsServes(cfg: Config, r: Request, k: nat, used: nat, arrivals: seq<string>)
    requires Reached(cfg, r, k, used) && BodyStart(r) <= cfg.bufMax && AlwaysFits(cfg, r)
    requires k + |Flatten(arrivals)| == |Encode(r)| && k < |Encode(r)|
    ensures Fits(cfg, r, k, used, arrivals)
    decreases |Flatten(arrivals)|, |arrivals|
  {
    if arrivals[0] == "" {
      AlwaysFitsServes(cfg, r, k, used, arrivals[1..]);
    } else {
      ReachedIsNotFull(cfg, r, k, used);
      var n := Take(cfg, used, arrivals);
      FitsStep(cfg, r, k, used, arrivals, n);
      if k + n < |Encode(r)| {
        ReachedStep(cfg, r, k, used, n);
        AlwaysFitsServes(cfg, r, k + n, UsedAt(cfg, r, k + n, used + n), Left(arrivals, n));
      }
    }
  }

  /** Fits(cfg, r, k, used, arrivals), kept folded. */
  ghost predicate Passes(cfg: Config, r: Request, k: nat, used: nat, arrivals: seq<string>) {
    forall x :: Peek(x) && x == arrivals ==> Fits(cfg, r, k, used, x)
  }

  lemma FirstOfTwo(cfg: Config, r: Request, k: nat, used: nat, a: string, b: string, n: nat)
    requires a != "" && k + |a| < |Encode(r)| && Passes(cfg, r, k, used, [a, b]) && n == Take(cfg, used, [a, b])
    ensures 0 < n <= |a|
    ensures Passes(cfg, r, k + n, UsedAt(cfg, r, k + n, used + n), if n < |a| then [a[n..], b] else [b])
  {
    assert Peek([a, b]);
    FitsStep(cfg, r, k, used, [a, b], n);
    assert Left([a, b], n) == [a[n..], b];
    assert [a[n..], b][1..] == [b];
  }

  /** When the first of two arrivals is read, the second one is due. */
  lemma {:induction false} SecondArrival(cfg: Config, r: Request, k: nat, used: nat, a: string, b: string, end: nat)
      returns (before: nat)
    requires a != "" && end == k + |a| < |Encode(r)| && Passes(cfg, r, k, used, [a, b])
    ensures Passes(cfg, r, end, UsedAt(cfg, r, end, before), [b])
    decreases |a|
  {
    var n := Take(cfg, used, [a, b]);
    FirstOfTwo(cfg, r, k, used, a, b, n);
    if n < |a| {
      before := SecondArrival(cfg, r, k + n, UsedAt(cfg, r, k + n, used + n), a[n..], b, end);
    } else {
      before := used + n;
    }
  }

  /** A read that fills the buffer outside data, with more to come. */
  lemma FillsUp(cfg: Config, r: Request, k: nat, used: nat, b: string, n: nat)
    requires used < cfg.bufMax && n == cfg.bufMax - used < |b| && k + |b| == |Encode(r)|
    requires UsedAt(cfg, r, k + n, cfg.bufMax) >= cfg.bufMax
    ensures !Fits(cfg, r, k, used, [b])
  {
    FitsStep(cfg, r, k, used, [b], n);
    assert Left([b], n) == [b[n..]];
  }

  lemma StopsAtOnce(cfg: Config, r: Request)
    requires r.body.InChunks? && BodyStart(r) <= cfg.bufMax && !LandsWell(cfg, r, 0)
    ensures !Fits(cfg, r, 0, 0, [Encode(r)])
  {
    var cs, room := r.body.chunks, cfg.bufMax - BodyStart(r);
    if DataPart(cs, room) > 0 {
      PartFrom(cs, room, 1);
    }
    FillsUp(cfg, r, 0, 0, Encode(r), cfg.bufMax);
  }

  /** With one byte of a chunk read, the rest arrives at once. */
  lemma StopsFromData(cfg: Config, r: Request, s: nat, m: nat, rest: string)
    requires r.body.InChunks? && BodyStart(r) <= cfg.bufMax && !LandsWell(cfg, r, s)
    requires m == BodyStart(r) + s + 1 && m + |rest| == |Encode(r)| && 0 < |rest|
    ensures !Fits(cfg, r, m, BodyStart(r) + 1, [rest])
  {
    var room := cfg.bufMax - BodyStart(r);
    if room > 1 {
      FillsUp(cfg, r, m, BodyStart(r) + 1, rest, room - 1);
    }
  }

  lemma StopsLater(cfg: Config, r: Request, s: nat, a: string, b: string)
    requires r.body.InChunks? && BodyStart(r) <= cfg.bufMax && DataPart(r.body.chunks, s + 1) == 1
    requires !LandsWell(cfg, r, s) && |a| == BodyStart(r) + s + 1 && |a| + |b| == |Encode(r)| && b != ""
    ensures !Fits(cfg, r, 0, 0, [a, b])
  {
    if Fits(cfg, r, 0, 0, [a, b]) {
      var before := SecondArrival(cfg, r, 0, 0, a, b, |a|);
      assert Peek([b]);
      StopsFromData(cfg, r, s, |a|, b);
    }
  }

  /** Arrivals that do not get through, from an offset that does not land well. */
  lemma StopsSomehow(cfg: Config, r: Request, s: nat) returns (arrivals: seq<string>)
    requires r.body.InChunks? && BodyStart(r) <= cfg.bufMax && Restarts(r.body.chunks, s) && !LandsWell(cfg, r, s)
    ensures Flatten(arrivals) == Encode(r) && !Fits(cfg, r, 0, 0, arrivals)
  {
    var input, m := Encode(r), BodyStart(r) + s + 1;
    if s == 0 {
      arrivals := [input];
      assert Flatten([]) == "" && [input][1..] == [];
      assert Flatten([input]) == input + "";
      StopsAtOnce(cfg, r);
    } else {
      PartFrom(r.body.chunks, s + 1, 1);
      arrivals := [input[..m], input[m..]];
      FlattenTwo(input[..m], input[m..]);
      assert input == input[..m] + input[m..];
      StopsLater(cfg, r, s, input[..m], input[m..]);
    }
  }

  lemma FlattenTwo(a: string, b: string)
    ensures Flatten([a, b]) == a + b
  {
    assert [a, b][1..] == [b] && [b][1..] == [];
    assert Flatten([b]) == b + "";
  }

  /** A chunked request gets through however it arrives if and only if the buffer, filled up from the start of the
      body or of the data of any chunk of two bytes or more, ends behind the message or inside the data of a later
      chunk. */
  lemma FitsHoweverIff(cfg: Config, r: Request)
    requires r.body.InChunks? && BodyStart(r) <= cfg.bufMax
    ensures (forall arrivals :: Flatten(arrivals) == Encode(r) ==> Fits(cfg, r, 0, 0, arrivals)) <==> AlwaysFits(cfg, r)
  {
    if AlwaysFits(cfg, r) {
      forall arrivals | Flatten(arrivals) == Encode(r)
        ensures Fits(cfg, r, 0, 0, arrivals)
      {
        assert Since(cfg, r, 0, 0, 0);
        AlwaysFitsServes(cfg, r, 0, 0, arrivals);
      }
    } else {
      var s :| Restarts(r.body.chunks, s) && !LandsWell(cfg, r, s);
      var arrivals := StopsSomehow(cfg, r, s);
    }
  }

  /** A chunked request of any length that gets through however it arrives. */
  method ServeChunked(cfg: Config, ghost r: Request, arrivals: seq<string>) returns (ok: bool, es: seq<Emitted>)
    requires WellFormed(cfg, r) && ShortHead(cfg, r) && r.body.InChunks? && Flatten(arrivals) == Encode(r)
    ensures AlwaysFits(cfg, r) ==> ok
    ensures ok ==> Atoms(es) == Tokens(cfg, r)
  {
    if AlwaysFits(cfg, r) {
      FitsHoweverIff(cfg, r);
    }
    ok, es := ServeRequest(cfg, r, arrivals);
  }

  lemma {:induction false} FullStops(cfg: Config, r: Request, k: nat, used: nat, arrivals: seq<string>)
    requires used >= cfg.bufMax && Flatten(arrivals) != ""
    ensures !Fits(cfg, r, k, used, arrivals)
    decreases |arrivals|
  {
    if arrivals[0] == "" {
      FullStops(cfg, r, k, used, arrivals[1..]);
    }
  }

  /** A buffer that holds the head with each chunk is not enough: when the head and the first chunk just fit, the
      request does not get through if it arrives at once, nor in any way in which a read ends with that chunk. */
  lemma FullAtChunkEnd(cfg: Config, r: Request, a: string, more: seq<string>)
    requires r.body.InChunks? && r.body.chunks != [] && GoodSizeLine(r.body.last, 0)
    requires cfg.bufMax == BodyStart(r) + |EncodeChunk(r.body.chunks[0])| == |a| && a + Flatten(more) == Encode(r)
    ensures !Fits(cfg, r, 0, 0, [Encode(r)]) && !Fits(cfg, r, 0, 0, [a] + more) && !AlwaysFits(cfg, r)
  {
    var cs := r.body.chunks;
    assert DataPart(cs, |EncodeChunk(cs[0])|) == 0;
    assert EncodeBody(r.body) == EncodeChunk(cs[0]) + (EncodeChunks(cs[1..]) + EncodeSizeLine(r.body.last) + "\r\n");
    assert !LandsWell(cfg, r, 0) && Restarts(cs, 0);
    StopsAtOnce(cfg, r);
    StopsBehind(cfg, r, a, more);
  }

  lemma StopsBehind(cfg: Config, r: Request, a: string, more: seq<string>)
    requires 0 < |a| == cfg.bufMax < |Encode(r)| && UsedAt(cfg, r, |a|, |a|) == |a| && a + Flatten(more) == Encode(r)
    ensures !Fits(cfg, r, 0, 0, [a] + more)
  {
    var arrivals := [a] + more;
    FitsStep(cfg, r, 0, 0, arrivals, |a|);
    assert arrivals[1..] == more;
    FullStops(cfg, r, |a|, |a|, Left(arrivals, |a|));
  }

  // ------------------------------------------------------------------ chunks of one byte

  lemma {:induction false} NoInside(cs: seq<Chunk>, k: nat)
    requires forall i :: 0 <= i < |cs| ==> |cs[i].data| == 1
    ensures DataPart(cs, k) == 0
    decreases |cs|
  {
    if cs != [] && k >= |EncodeChunk(cs[0])| {
      NoInside(cs[1..], k - |EncodeChunk(cs[0])|);
    }
  }

  /** Chunks of one byte have no inside: their reads never give anything back, so that the request gets through,
      however it arrives, if and only if the whole message fits. */
  method ServeOneByteChunks(cfg: Config, ghost r: Request, arrivals: seq<string>) returns (ok: bool, es: seq<Emitted>)
    requires WellFormed(cfg, r) && ShortHead(cfg, r) && r.body.InChunks? && Flatten(arrivals) == Encode(r)
    requires forall i :: 0 <= i < |r.body.chunks| ==> |r.body.chunks[i].data| == 1
    ensures ok <==> |Encode(r)| <= cfg.bufMax
    ensures ok ==> Atoms(es) == Tokens(cfg, r)
  {
    forall k: nat, used: nat
      ensures UsedAt(cfg, r, k, used) == used
    {
      if k > BodyStart(r) {
        NoInside(r.body.chunks, k - BodyStart(r));
      }
    }
    KeptFitsIff(cfg, r, 0, arrivals);
    ok, es := ServeRequest(cfg, r, arrivals);
  }

  // ------------------------------------------------------------------ arrivals that end inside chunk data

  /** Every arrival, up to the end of the message, ends inside chunk data, at most m bytes into it; k bytes arrived
      before. */
  predicate CutsInside(r: Request, k: nat, arrivals: seq<string>, m: nat)
    requires r.body.InChunks?
    decreases |arrivals|
  {
    arrivals == [] ||
    var n := k + |arrivals[0]|;
    n < |Encode(r)| ==>
      && BodyStart(r) <= n && 0 < DataPart(r.body.chunks, n - BodyStart(r)) <= m && CutsInside(r, n, arrivals[1..], m)
  }

  /** What such arrivals need: the buffer holds the first one, and then the head with m bytes and one arrival. Kept
      folded. */
  ghost predicate Suits(cfg: Config, r: Request, k: nat, used: nat, arrivals: seq<string>, m: nat, n: nat) {
    && (arrivals != [] ==> used + |arrivals[0]| <= cfg.bufMax)
    && forall x :: Peek(x) && x == arrivals ==>
        && r.body.InChunks? && CutsInside(r, k, x, m) && (forall i :: 0 < i < |x| ==> |x[i]| <= n)
        && BodyStart(r) + m + n <= cfg.bufMax && (k > 0 ==> used <= BodyStart(r) + m)
  }

  lemma SuitsStep(cfg: Config, r: Request, k: nat, used: nat, arrivals: seq<string>, m: nat, n: nat, k': nat)
    requires Suits(cfg, r, k, used, arrivals, m, n) && arrivals != [] && k' == k + |arrivals[0]| < |Encode(r)|
    ensures 0 < k'
    ensures Suits(cfg, r, k', if arrivals[0] == "" then used
      else UsedAt(cfg, r, k', used + |arrivals[0]|), arrivals[1..],
                  m, n)
  {
    assert Peek(arrivals);
    var rest := arrivals[1..];
    assert forall i :: 0 < i < |rest| ==> rest[i] == arrivals[i + 1];
    assert rest != [] ==> rest[0] == arrivals[1];
  }

  /** Such arrivals are read one by one. */
  lemma {:induction false} InsideFits(cfg: Config, r: Request, k: nat, used: nat, arrivals: seq<string>, m: nat, n: nat)
    requires Suits(cfg, r, k, used, arrivals, m, n) && k + |Flatten(arrivals)| == |Encode(r)|
    ensures Fits(cfg, r, k, used, arrivals)
    decreases |arrivals|
  {
    if arrivals == [] {
    } else {
      var first, k' := arrivals[0], k + |arrivals[0]|;
      if k' < |Encode(r)| {
        SuitsStep(cfg, r, k, used, arrivals, m, n, k');
        var next := if first == "" then used else UsedAt(cfg, r, k', used + |first|);
        InsideFits(cfg, r, k', next, arrivals[1..], m, n);
        ReadWhole(cfg, r, k, used, arrivals, k', next);
      } else {
        LastArrival(cfg, r, k, used, arrivals);
      }
    }
  }

  lemma ReadWhole(cfg: Config, r: Request, k: nat, used: nat, arrivals: seq<string>, k': nat, next: nat)
    requires arrivals != [] && used + |arrivals[0]| <= cfg.bufMax && k' == k + |arrivals[0]| < |Encode(r)|
    requires next == if arrivals[0] == "" then used else UsedAt(cfg, r, k', used + |arrivals[0]|)
    requires Fits(cfg, r, k', next, arrivals[1..])
    ensures Fits(cfg, r, k, used, arrivals)
  {
    var n := |arrivals[0]|;
    if n > 0 {
      FitsStep(cfg, r, k, used, arrivals, n);
      SkipEmpty(cfg, r, k', next, arrivals, n);
    }
  }

  lemma LastArrival(cfg: Config, r: Request, k: nat, used: nat, arrivals: seq<string>)
    requires arrivals != [] && used + |arrivals[0]| <= cfg.bufMax && k + |arrivals[0]| >= |Encode(r)|
    requires k + |Flatten(arrivals)| == |Encode(r)|
    ensures Fits(cfg, r, k, used, arrivals)
  {
    if arrivals[0] == "" {
      NothingDue(cfg, r, k, used, arrivals);
    } else {
      FitsStep(cfg, r, k, used, arrivals, |arrivals[0]|);
    }
  }

  lemma SkipEmpty(cfg: Config, r: Request, k: nat, used: nat, arrivals: seq<string>, n: nat)
    requires arrivals != [] && n == |arrivals[0]|
    ensures Fits(cfg, r, k, used, Left(arrivals, n)) <==> Fits(cfg, r, k, used, arrivals[1..])
  {
    assert Left(arrivals, n)[1..] == arrivals[1..];
  }

  lemma {:induction false} NothingDue(cfg: Config, r: Request, k: nat, used: nat, arrivals: seq<string>)
    requires Flatten(arrivals) == ""
    ensures Fits(cfg, r, k, used, arrivals)
    decreases |arrivals|
  {
    if arrivals != [] {
      NothingDue(cfg, r, k, used, arrivals[1..]);
    }
  }

  /** A chunked body of any length whose arrivals end inside chunk data: the buffer needs to hold the first one, and
      then the head, the unfinished part of one chunk and one arrival. */
  method ServeInsideChunks(cfg: Config, ghost r: Request, arrivals: seq<string>, ghost m: nat, ghost n: nat)
      returns (es: seq<Emitted>)
    requires WellFormed(cfg, r) && ShortHead(cfg, r) && r.body.InChunks? && Flatten(arrivals) == Encode(r)
    requires CutsInside(r, 0, arrivals, m) && (forall i :: 0 < i < |arrivals| ==> |arrivals[i]| <= n)
    requires arrivals != [] && |arrivals[0]| <= cfg.bufMax && BodyStart(r) + m + n <= cfg.bufMax
    ensures Atoms(es) == Tokens(cfg, r)
  {
    InsideFits(cfg, r, 0, 0, arrivals, m, n);
    var ok;
    ok, es := ServeRequest(cfg, r, arrivals);
  }
}
