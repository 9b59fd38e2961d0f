/** How much of the buffer a division into reads takes, over whole sessions. */
module ReadRoom {
  import opened HttpTables
  import opened TokenSpec

  // ------------------------------------------------------------------ where the body starts

  /** One byte moves the offset on in the head and leaves it alone in the body. */
  lemma {:induction false} StepPos(cfg: Config, s: Live, c: char)
    requires LiveInv(s) && Step(cfg, s, c).Go?
    ensures var l := Step(cfg, s, c).s;
      && (l.p.state <= HN ==> s.p.state < HN && l.pos == s.pos + 1)
      && (HN < l.p.state ==> HN <= s.p.state && l.pos == s.pos)
    decreases Rank(s)
  {
    var to := Move(s.p.state, s.p.meta, CType(c));
    if to == CB || to == BD {
      BodyFacts(s, to, CType(c));
      if BodyLeft(s) == 0 {
        EmptyBodyStep(cfg, s, c, to);
        StepPos(cfg, AfterBody(s, to), c);
      } else {
        BodyByte(cfg, s, to, c);
      }
    }
  }

  lemma {:induction false} RunPos(cfg: Config, s: Live, bytes: string)
    requires LiveInv(s) && Run(cfg, s, bytes).Go?
    ensures var l := Run(cfg, s, bytes).s;
      && (l.p.state <= HN ==> s.p.state <= HN && l.pos == s.pos + |bytes|)
      && (HN <= s.p.state ==> HN <= l.p.state && l.pos == s.pos)
    decreases |bytes|
  {
    if bytes != "" {
      var r := Step(cfg, s, bytes[0]);
      StepPos(cfg, s, bytes[0]);
      RunPos(cfg, r.s, bytes[1..]);
    }
  }

  // ------------------------------------------------------------------ what is held

  /** The least that the buffer must hold: the head, and the part of a chunk that was read. */
  function Held(s: Live): nat {
    s.pos + if s.p.state == CB then |s.text| else 0
  }

  lemma {:induction false} StepHeld(cfg: Config, s: Live, c: char)
    requires LiveInv(s) && Step(cfg, s, c).Go?
    ensures Held(Step(cfg, s, c).s) <= Held(s) + 1
    decreases Rank(s)
  {
    var to := Move(s.p.state, s.p.meta, CType(c));
    if to == CB || to == BD {
      BodyFacts(s, to, CType(c));
      if BodyLeft(s) == 0 {
        EmptyBodyStep(cfg, s, c, to);
        StepHeld(cfg, AfterBody(s, to), c);
      } else {
        BodyByte(cfg, s, to, c);
      }
    }
  }

  lemma {:induction false} RunHeld(cfg: Config, s: Live, bytes: string)
    requires LiveInv(s) && Run(cfg, s, bytes).Go?
    ensures Held(Run(cfg, s, bytes).s) <= Held(s) + |bytes|
    decreases |bytes|
  {
    if bytes != "" {
      StepHeld(cfg, s, bytes[0]);
      RunHeld(cfg, Step(cfg, s, bytes[0]).s, bytes[1..]);
    }
  }

  /** What fits into the buffer altogether finds room, however it arrives. */
  lemma {:induction false} RoomForAll(cfg: Config, s: Live, used: nat, arrivals: seq<string>)
    requires LiveInv(s) && Held(s) <= used && used + |Flatten(arrivals)| <= cfg.bufMax
    ensures Room(cfg, s, used, arrivals)
    decreases |Flatten(arrivals)|, |arrivals|
  {
    if arrivals == [] {
    } else if arrivals[0] == "" {
      RoomForAll(cfg, s, used, arrivals[1..]);
    } else {
      var n := Take(cfg, used, arrivals);
      var r := Run(cfg, s, arrivals[0][..n]);
      if r.Go? && !TooLong(cfg, r.s) {
        RunHeld(cfg, s, arrivals[0][..n]);
        RoomForAll(cfg, r.s, UsedAfter(r.s, used + n), Left(arrivals, n));
      }
    }
  }

  // ------------------------------------------------------------------ the reads that are made

  /** The reads bring the beginning of what arrives, and all of it when the buffer is never full. */
  lemma {:induction false} ReadsBytes(cfg: Config, s: Live, used: nat, arrivals: seq<string>)
    requires LiveInv(s)
    ensures Flatten(Reads(cfg, s, used, arrivals)) <= Flatten(arrivals)
    ensures Room(cfg, s, used, arrivals) ==> Flatten(Reads(cfg, s, used, arrivals)) == Flatten(arrivals)
    decreases |Flatten(arrivals)|, |arrivals|
  {
    if arrivals == [] {
    } else if arrivals[0] == "" {
      ReadsBytes(cfg, s, used, arrivals[1..]);
    } else if used < cfg.bufMax {
      var n := Take(cfg, used, arrivals);
      var piece := arrivals[0][..n];
      var r := Run(cfg, s, piece);
      ReadsStep(cfg, s, used, arrivals, n, piece);
      if r.Go? && !TooLong(cfg, r.s) {
        var next := UsedAfter(r.s, used + n);
        ReadsBytes(cfg, r.s, next, Left(arrivals, n));
        FlattenCons(piece, Reads(cfg, r.s, next, Left(arrivals, n)));
      } else {
        FlattenCons(piece, Left(arrivals, n));
      }
    }
  }

  lemma FlattenCons(a: string, rest: seq<string>)
    ensures Flatten([a] + rest) == a + Flatten(rest)
  {
    assert ([a] + rest)[1..] == rest;
  }

  /** What the buffer holds when everything that arrived was read. */
  function UsedAll(cfg: Config, s: Live, used: nat, arrivals: seq<string>): nat
    requires LiveInv(s)
    decreases |Flatten(arrivals)|, |arrivals|
  {
    if arrivals == [] then used
    else if arrivals[0] == "" then UsedAll(cfg, s, used, arrivals[1..])
    else if used >= cfg.bufMax then used
    else
      var n := Take(cfg, used, arrivals);
      var r := Run(cfg, s, arrivals[0][..n]);
      if r.Go? then UsedAll(cfg, r.s, UsedAfter(r.s, used + n), Left(arrivals, n)) else used + n
  }

  lemma LeftJoin(a: seq<string>, b: seq<string>, n: nat)
    requires a != [] && n <= |a[0]|
    ensures a + b != [] && (a + b)[0] == a[0] && (a + b)[1..] == a[1..] + b && Left(a + b, n) == Left(a, n) + b
  {
    assert (a + b)[1..] == a[1..] + b;
  }

  /** Room for what arrives after something else: it is decided in the state and with the space that the reads
      before leave behind. */
  lemma {:induction false} RoomSplit(cfg: Config, s: Live, used: nat, a: seq<string>, b: seq<string>)
    requires LiveInv(s)
    ensures var r := Session(cfg, s, Reads(cfg, s, used, a));
      Room(cfg, s, used, a + b) <==>
        Room(cfg, s, used, a) && (r.Go? ==> Room(cfg, r.s, UsedAll(cfg, s, used, a), b))
    decreases |Flatten(a)|, |a|
  {
    if a == [] {
      assert a + b == b;
    } else {
      LeftJoin(a, b, 0);
      if a[0] == "" {
        RoomSplit(cfg, s, used, a[1..], b);
      } else if used < cfg.bufMax {
        var n := Take(cfg, used, a);
        LeftJoin(a, b, n);
        RoomSplitStep(cfg, s, used, a, b, n, a[0][..n]);
        var r := Run(cfg, s, a[0][..n]);
        if r.Go? && !TooLong(cfg, r.s) {
          RoomSplit(cfg, r.s, UsedAfter(r.s, used + n), Left(a, n), b);
        }
      }
    }
  }

  lemma RoomSplitStep(cfg: Config, s: Live, used: nat, a: seq<string>, b: seq<string>, n: nat, piece: string)
    requires LiveInv(s) && a != [] && a[0] != "" && used < cfg.bufMax && n == Take(cfg, used, a) && piece == a[0][..n]
    ensures (a + b)[0] == a[0]
    ensures var r := Run(cfg, s, piece);
      var t := Session(cfg, s, Reads(cfg, s, used, a));
      if r.Go? && !TooLong(cfg, r.s) then
        var next, left := UsedAfter(r.s, used + n), Left(a, n);
        var t2 := Session(cfg, r.s, Reads(cfg, r.s, next, left));
        && t == Prefix(r.out, t2) && UsedAll(cfg, s, used, a) == UsedAll(cfg, r.s, next, left)
        && (Room(cfg, s, used, a) <==> Room(cfg, r.s, next, left))
        && (Room(cfg, s, used, a + b) <==> Room(cfg, r.s, next, left + b))
      else !t.Go? && Room(cfg, s, used, a) && Room(cfg, s, used, a + b)
  {
    LeftJoin(a, b, n);
    ReadsStep(cfg, s, used, a, n, piece);
    ReadsStep(cfg, s, used, a + b, n, piece);
    var r := Run(cfg, s, piece);
    if r.Go? && !TooLong(cfg, r.s) {
      var more := Reads(cfg, r.s, UsedAfter(r.s, used + n), Left(a, n));
      assert ([piece] + more)[1..] == more;
    } else {
      assert ([piece] + Left(a, n))[0] == piece;
    }
  }
}
