/** Loops of reads and writes on a non-blocking socket. What the socket answers is a script; a script that ends
    means that nothing more is available, or that no more is taken. */
module Sockets {

  datatype ReadResult = Data(bytes: string) | ReadInterrupted | ReadWouldBlock | ReadFailed | EndOfStream

  datatype WriteResult = Wrote(count: nat) | WriteInterrupted | WriteWouldBlock | WriteFailed

  datatype Status = Ok | Failed | Eof

  datatype Read = Read(bytes: string, status: Status)

  datatype Written = Written(count: nat, status: Status)

  // ------------------------------------------------------------------ reading

  /** Data and interruptions; no data at all is the end of the stream. */
  predicate KeepsReading(a: ReadResult) {
    a.ReadInterrupted? || (a.Data? && a.bytes != "")
  }

  /** The place of the first answer that ends the loop. */
  function ReadsHeeded(s: seq<ReadResult>): (k: nat)
    ensures k <= |s| && (forall i :: 0 <= i < k ==> KeepsReading(s[i])) && (k < |s| ==> !KeepsReading(s[k]))
  {
    if s == [] || !KeepsReading(s[0]) then 0 else 1 + ReadsHeeded(s[1..])
  }

  function BytesOf(a: ReadResult): string {
    if a.Data? then a.bytes else ""
  }

  /** The data of all answers, one after the other. */
  function Received(s: seq<ReadResult>): string {
    if s == [] then "" else BytesOf(s[0]) + Received(s[1..])
  }

  /** How many bytes the answers hold. */
  function Size(s: seq<ReadResult>): nat {
    if s == [] then 0 else (if s[0].Data? then |s[0].bytes| else 0) + Size(s[1..])
  }

  /** What the answer that ends a loop of reads calls for. */
  function AfterReads(s: seq<ReadResult>): Status {
    var k := ReadsHeeded(s);
    if k == |s| || s[k].ReadWouldBlock? then Ok else if s[k].ReadFailed? then Failed else Eof
  }

  /** What a loop of reads takes in: the data in front of the first answer that is neither data nor an
      interruption. */
  function Gather(s: seq<ReadResult>): Read {
    Read(Received(s[..ReadsHeeded(s)]), AfterReads(s))
  }

  lemma {:induction false} ReceivedJoin(a: seq<ReadResult>, b: seq<ReadResult>)
    ensures Received(a + b) == Received(a) + Received(b)
    decreases |a|
  {
    if a == [] {
      assert a + b == b;
    } else {
      assert (a + b)[0] == a[0] && (a + b)[1..] == a[1..] + b;
      ReceivedJoin(a[1..], b);
      assert BytesOf(a[0]) + (Received(a[1..]) + Received(b)) == (BytesOf(a[0]) + Received(a[1..])) + Received(b);
    }
  }

  lemma ReceivedSize(s: seq<ReadResult>)
    ensures |Received(s)| == Size(s)
  {
  }

  lemma ReceivedParts(s: seq<ReadResult>, i: nat)
    requires i < |s|
    ensures Received(s) == Received(s[..i]) + (BytesOf(s[i]) + Received(s[i + 1..]))
  {
    assert s[..i] + s[i..] == s && s[i..][1..] == s[i + 1..];
    ReceivedJoin(s[..i], s[i..]);
  }

  lemma Middle(a: string, x: string, b: string)
    ensures (a + (x + b))[|a|..][..|x|] == x
  {
    assert (a + (x + b))[|a|..] == x + b;
  }

  /** By position: the data of every answer stands behind as many bytes as the answers in front of it hold, and there
      are no other bytes. */
  lemma ReceivedAt(s: seq<ReadResult>, i: nat)
    requires i < |s| && s[i].Data?
    ensures |Received(s)| == Size(s) && Size(s[..i]) + |s[i].bytes| <= Size(s)
    ensures Received(s)[Size(s[..i])..][..|s[i].bytes|] == s[i].bytes
  {
    ReceivedSize(s);
    ReceivedSize(s[..i]);
    ReceivedParts(s, i);
    Middle(Received(s[..i]), BytesOf(s[i]), Received(s[i + 1..]));
  }

  /** What a loop of reads takes in and how it ends, by position: with k the first answer that is neither data nor an
      interruption, it takes the data in front of k, and ends well at the end of the script or where reading would
      block, with an error at a failure, and at the end of the stream otherwise. */
  lemma GatherByPosition(s: seq<ReadResult>, k: nat)
    requires k <= |s| && forall i :: 0 <= i < k ==> s[i] == ReadInterrupted || (s[i].Data? && |s[i].bytes| > 0)
    requires k < |s| ==> s[k] != ReadInterrupted && (s[k].Data? ==> s[k].bytes == "")
    ensures Gather(s).bytes == Received(s[..k])
    ensures k == |s| || s[k] == ReadWouldBlock ==> Gather(s).status == Ok
    ensures k < |s| && s[k] == ReadFailed ==> Gather(s).status == Failed
    ensures k < |s| && (s[k] == EndOfStream || s[k] == Data("")) ==> Gather(s).status == Eof
  {
    LoopEnds("", s, k);
  }

  lemma ReceivedSnoc(queue: string, s: seq<ReadResult>, i: nat)
    requires i < |s|
    ensures queue + Received(s[..i + 1]) == queue + Received(s[..i]) + BytesOf(s[i])
  {
    assert s[..i + 1] == s[..i] + [s[i]] && [s[i]][1..] == [];
    ReceivedJoin(s[..i], [s[i]]);
  }

  lemma LoopEnds(queue: string, s: seq<ReadResult>, k: nat)
    requires k <= |s| && (forall i :: 0 <= i < k ==> KeepsReading(s[i])) && (k < |s| ==> !KeepsReading(s[k]))
    ensures queue + Received(s[..ReadsHeeded(s)]) == queue + Received(s[..k]) && ReadsHeeded(s) == k
  {
    assert ReadsHeeded(s) == k;
  }

  /** Reads until the socket has no more, appending to a queue. */
  method ReadLoop(queue: string, script: seq<ReadResult>) returns (next: string, rc: Status)
    ensures next == queue + Received(script[..ReadsHeeded(script)]) && rc == AfterReads(script)
  {
    next, rc := queue, Ok;
    var i := 0;
    while i < |script|
      invariant i <= |script| && rc == Ok && next == queue + Received(script[..i])
      invariant forall j :: 0 <= j < i ==> KeepsReading(script[j])
    {
      ReceivedSnoc(queue, script, i);
      if !KeepsReading(script[i]) {
        LoopEnds(queue, script, i);
      }
      match script[i] {
      case Data(bytes) =>
        if bytes == "" {
          return next, Eof;
        }
        next := next + bytes;
      case ReadInterrupted =>
      case ReadWouldBlock => return next, Ok;
      case ReadFailed => return next, Failed;
      case EndOfStream => return next, Eof;
      }
      i := i + 1;
    }
    LoopEnds(queue, script, i);
  }

  // ------------------------------------------------------------------ writing

  /** A write that took something, and interruptions; a write that took nothing is the end of the stream. */
  predicate KeepsWriting(a: WriteResult) {
    a.WriteInterrupted? || (a.Wrote? && a.count > 0)
  }

  /** The place of the first answer that ends the loop, if the queue lasts. */
  function WritesHeeded(s: seq<WriteResult>): (k: nat)
    ensures k <= |s| && (forall i :: 0 <= i < k ==> KeepsWriting(s[i])) && (k < |s| ==> !KeepsWriting(s[k]))
  {
    if s == [] || !KeepsWriting(s[0]) then 0 else 1 + WritesHeeded(s[1..])
  }

  /** The sum of what the writes can take. */
  function Taken(s: seq<WriteResult>): nat {
    if s == [] then 0 else Taken(s[..|s| - 1]) + (if s[|s| - 1].Wrote? then s[|s| - 1].count else 0)
  }

  /** How many of n bytes a loop of writes gets rid of: the sum of what is taken in front of the first answer
      that ends the loop, but never more than there are; that answer is not asked for once nothing is left. */
  function Drain(s: seq<WriteResult>, n: nat): (w: Written)
    ensures w.count <= n && (n == 0 ==> w.status == Ok)
  {
    var k := WritesHeeded(s);
    var total := Taken(s[..k]);
    if n <= total then Written(n, Ok)
    else Written(total, if k == |s| || s[k].WriteWouldBlock? then Ok else if s[k].WriteFailed? then Failed else Eof)
  }

  /** The sum is one: it adds up over any cut of the answers, and a single write counts for what it took. */
  lemma {:induction false} TakenJoin(a: seq<WriteResult>, b: seq<WriteResult>, n: nat)
    ensures Taken(a + b) == Taken(a) + Taken(b) && Taken([Wrote(n)]) == n && Taken([WriteInterrupted]) == 0
    decreases |b|
  {
    assert [Wrote(n)][..0] == [] && [WriteInterrupted][..0] == [];
    if b == [] {
      assert a + b == a;
    } else {
      var k := |b| - 1;
      assert (a + b)[..|a + b| - 1] == a + b[..k] && (a + b)[|a + b| - 1] == b[k];
      TakenJoin(a, b[..k], n);
    }
  }

  /** What a loop of writes gets rid of and how it ends, by position: with k the first answer that is neither a write
      of something nor an interruption, it drops as many of the n bytes as the writes in front of k took; it ends well
      when all are gone, and otherwise as answer k says. */
  lemma DrainByPosition(s: seq<WriteResult>, n: nat, k: nat)
    requires k <= |s| && forall i :: 0 <= i < k ==> s[i] == WriteInterrupted || (s[i].Wrote? && s[i].count > 0)
    requires k < |s| ==> s[k] != WriteInterrupted && (s[k].Wrote? ==> s[k].count == 0)
    ensures Taken(s[..k]) >= n ==> Drain(s, n) == Written(n, Ok)
    ensures Taken(s[..k]) < n ==>
      && Drain(s, n).count == Taken(s[..k])
      && (k == |s| || s[k] == WriteWouldBlock ==> Drain(s, n).status == Ok)
      && (k < |s| && s[k] == WriteFailed ==> Drain(s, n).status == Failed)
      && (k < |s| && s[k] == Wrote(0) ==> Drain(s, n).status == Eof)
  {
    assert WritesHeeded(s) == k;
  }

  lemma {:induction false} TakenGrows(s: seq<WriteResult>, i: nat)
    requires i <= |s|
    ensures Taken(s[..i]) <= Taken(s)
    decreases |s|
  {
    if i == |s| {
      assert s[..i] == s;
    } else {
      var init := s[..|s| - 1];
      assert init[..i] == s[..i];
      TakenGrows(init, i);
    }
  }

  /** Writes until the queue is empty or the socket takes no more, shifting out what was written. A write takes
      no more than it is given. */
  method WriteLoop(queue: string, script: seq<WriteResult>) returns (next: string, rc: Status)
    ensures next == queue[Drain(script, |queue|).count..] && rc == Drain(script, |queue|).status
  {
    next, rc := queue, Ok;
    var i := 0;
    ghost var sent := 0;
    while i < |script| && next != ""
      invariant i <= |script| && sent <= |queue| && next == queue[sent..] && rc == Ok
      invariant sent == Taken(script[..i]) || sent == |queue| <= Taken(script[..i])
      invariant forall j :: 0 <= j < i ==> KeepsWriting(script[j])
    {
      assert script[..i + 1][..i] == script[..i];
      match script[i] {
      case Wrote(count) =>
        if count == 0 {
          return next, Eof;
        }
        var k := if count < |next| then count else |next|;
        next := next[k..];
        sent := sent + k;
      case WriteInterrupted =>
      case WriteWouldBlock => return next, Ok;
      case WriteFailed => return next, Failed;
      }
      i := i + 1;
    }
    ghost var k := WritesHeeded(script);
    assert i <= k;
    TakenGrows(script[..k], i);
    assert script[..k][..i] == script[..i];
  }
}
