/** The reverse-proxy channel: two byte queues between a client and an endpoint, and the two event handlers
    that fill, drain and re-arm them. A handler run is one step; what the sockets answer is given by scripts. */
module ProxyChannel {
  import opened Sockets

  datatype Events = Events(pollIn: bool, pollOut: bool)

  const NO_EVENTS := Events(false, false)

  function Or(a: Events, b: Events): Events {
    Events(a.pollIn || b.pollIn, a.pollOut || b.pollOut)
  }

  /** One socket event: which events are reported and how the socket answers. */
  datatype Step =
    | EndpointReady(events: Events, peer: bool, input: seq<ReadResult>, output: seq<WriteResult>)
    | ClientReady(events: Events, input: seq<ReadResult>, output: seq<WriteResult>)
    | EndpointDisposed

  // ------------------------------------------------------------------ the channel as a state machine

  /** What has passed through the channel. The client has failed when it was asked to leave because of an error
      of its own. */
  datatype History = History(initial: string, fromClient: string, fromEndpoint: string, toClient: string,
                             toEndpoint: string, clientFailed: bool)

  datatype State = State(limit: nat, toEndpoint: string, fromEndpoint: string, connected: bool, disconnected: bool,
                         endpointMask: Events, clientMask: Events, endpointClosing: bool, clientClosing: bool,
                         history: History)
  {
    /** In both directions nothing is lost, repeated or reordered. */
    predicate Conserved() {
      && history.toEndpoint + toEndpoint == history.initial + history.fromClient
      && history.toClient + fromEndpoint == history.fromEndpoint
    }

    predicate EndpointUp() {
      !endpointClosing && !disconnected
    }

    /** A non-empty queue has its consumer armed for output, an empty one its producer for input. */
    predicate Flows() {
      && (!connected && EndpointUp() ==> endpointMask.pollOut)
      && (!clientClosing ==>
            && (EndpointUp() || disconnected ==> fromEndpoint == "" || clientMask.pollOut)
            && (EndpointUp() ==> toEndpoint == "" || endpointMask.pollOut)
            && (EndpointUp() && connected && toEndpoint == "" ==> clientMask.pollIn)
            && (EndpointUp() && connected && fromEndpoint == "" ==> endpointMask.pollIn))
    }

    /** A client is asked to leave only after an error of its own, or when the endpoint has left and all
        that came from it has been delivered. */
    predicate Valid() {
      && limit > 0 && Conserved() && Flows() && !(connected && disconnected)
      && (clientClosing && !history.clientFailed ==> disconnected && history.toClient == history.fromEndpoint)
    }

    predicate Enabled(s: Step) {
      match s
      case EndpointReady(_, _, _, _) => EndpointUp()
      case ClientReady(_, _, _) => !clientClosing
      case EndpointDisposed => true
    }
  }

  function Initial(request: string, limit: nat, clientMask: Events): State {
    State(if limit == 0 then 1024 * 1024 else limit, request, "", false, false, Events(false, true), clientMask, false,
          false, History(request, "", "", "", "", false))
  }

  function ReadIf(ready: bool, script: seq<ReadResult>): Read {
    if ready then Gather(script) else Read("", Ok)
  }

  /** A handler writes unless it is told not to, or its reading failed. */
  function WriteIf(ready: bool, read: Status, script: seq<WriteResult>, n: nat): (w: Written)
    ensures w.count <= n
  {
    if ready && read == Ok then Drain(script, n) else Written(0, Ok)
  }

  predicate Below(limit: nat, queue: string) {
    limit == 0 || |queue| < limit
  }

  /** What the endpoint's handler moves. */
  function EndpointMoves(s: State, input: Read, output: Written): State
    requires output.count <= |s.toEndpoint|
  {
    s.(fromEndpoint := s.fromEndpoint + input.bytes, toEndpoint := s.toEndpoint[output.count..],
       history := s.history.(fromEndpoint := s.history.fromEndpoint + input.bytes,
                             toEndpoint := s.history.toEndpoint + s.toEndpoint[..output.count]))
  }

  function EndpointRearms(s: State, first: bool): State {
    s.(endpointMask := Events(Below(s.limit, s.fromEndpoint), first || s.toEndpoint != ""),
       clientMask := Or(s.clientMask, Events(first || s.toEndpoint == "", s.fromEndpoint != "")))
  }

  function EndpointStep(s: State, events: Events, peer: bool, input: seq<ReadResult>, output: seq<WriteResult>): State {
    if !s.connected && !peer then s.(endpointClosing := true)
    else
      var i := ReadIf(events.pollIn, input);
      var o := WriteIf(events.pollOut, i.status, output, |s.toEndpoint|);
      var t := EndpointMoves(s.(connected := true), i, o);
      if i.status != Ok || o.status != Ok then t.(endpointClosing := true) else EndpointRearms(t, !s.connected)
  }

  /** What the client's handler moves. */
  function ClientMoves(s: State, input: Read, output: Written): State
    requires output.count <= |s.fromEndpoint|
  {
    s.(toEndpoint := s.toEndpoint + input.bytes, fromEndpoint := s.fromEndpoint[output.count..],
       history := s.history.(fromClient := s.history.fromClient + input.bytes,
                             toClient := s.history.toClient + s.fromEndpoint[..output.count]))
  }

  function ClientRearms(s: State): State {
    s.(clientMask := Events(Below(s.limit, s.toEndpoint), s.fromEndpoint != ""),
       endpointMask := Or(s.endpointMask,
                          Events(s.fromEndpoint == "" && !s.disconnected, s.connected && s.toEndpoint != "")),
       clientClosing := s.clientClosing || (s.fromEndpoint == "" && s.disconnected))
  }

  function ClientStep(s: State, events: Events, input: seq<ReadResult>, output: seq<WriteResult>): State {
    var i := ReadIf(events.pollIn, input);
    var o := WriteIf(events.pollOut, i.status, output, |s.fromEndpoint|);
    var t := ClientMoves(s, i, o);
    if i.status != Ok || o.status != Ok then
      t.(clientClosing := true, history := t.history.(clientFailed := true))
    else ClientRearms(t)
  }

  function DisposeStep(s: State): State {
    s.(connected := false, disconnected := true, clientMask := Or(s.clientMask, Events(false, true)))
  }

  /** A handler that is no longer called does nothing. */
  function Next(s: State, step: Step): State {
    if !s.Enabled(step) then s
    else
      match step
      case EndpointReady(events, peer, input, output) => EndpointStep(s, events, peer, input, output)
      case ClientReady(events, input, output) => ClientStep(s, events, input, output)
      case EndpointDisposed => DisposeStep(s)
  }

  function Exec(s: State, steps: seq<Step>): State
    decreases |steps|
  {
    if steps == [] then s else Exec(Next(s, steps[0]), steps[1..])
  }

  lemma {:induction false} ExecSnoc(s: State, steps: seq<Step>, step: Step)
    ensures Exec(s, steps + [step]) == Next(Exec(s, steps), step)
    decreases |steps|
  {
    if steps == [] {
      assert (steps + [step])[1..] == [];
    } else {
      assert (steps + [step])[0] == steps[0] && (steps + [step])[1..] == steps[1..] + [step];
      ExecSnoc(Next(s, steps[0]), steps[1..], step);
    }
  }

  // ------------------------------------------------------------------ what every run keeps

  lemma MovesConserve(sent: string, queue: string, all: string, more: string, k: nat)
    requires sent + queue == all && k <= |queue|
    ensures (sent + queue[..k]) + queue[k..] == all
    ensures sent + (queue + more) == all + more
  {
    assert queue == queue[..k] + queue[k..];
    assert sent + (queue[..k] + queue[k..]) == (sent + queue[..k]) + queue[k..];
    assert sent + (queue + more) == (sent + queue) + more;
  }

  lemma EndpointMovesConserve(s: State, input: Read, output: Written)
    requires s.Conserved() && output.count <= |s.toEndpoint|
    ensures EndpointMoves(s, input, output).Conserved()
  {
    MovesConserve(s.history.toEndpoint, s.toEndpoint, s.history.initial + s.history.fromClient, "", output.count);
    MovesConserve(s.history.toClient, s.fromEndpoint, s.history.fromEndpoint, input.bytes, 0);
  }

  lemma ClientMovesConserve(s: State, input: Read, output: Written)
    requires s.Conserved() && output.count <= |s.fromEndpoint|
    ensures ClientMoves(s, input, output).Conserved()
  {
    var h := s.history;
    MovesConserve(h.toEndpoint, s.toEndpoint, h.initial + h.fromClient, input.bytes, 0);
    MovesConserve(h.toClient, s.fromEndpoint, h.fromEndpoint, "", output.count);
    assert (h.initial + h.fromClient) + input.bytes == h.initial + (h.fromClient + input.bytes);
  }

  lemma EndpointStepSound(s: State, events: Events, peer: bool, input: seq<ReadResult>, output: seq<WriteResult>)
    requires s.Valid() && s.EndpointUp()
    ensures EndpointStep(s, events, peer, input, output).Valid()
  {
    var i := ReadIf(events.pollIn, input);
    var o := WriteIf(events.pollOut, i.status, output, |s.toEndpoint|);
    EndpointMovesConserve(s.(connected := true), i, o);
    if (s.connected || peer) && i.status == Ok && o.status == Ok {
      EndpointRearmSound(EndpointMoves(s.(connected := true), i, o), !s.connected);
    }
  }

  /** Whatever the handler has moved, its masks leave no queue stuck. */
  lemma EndpointRearmSound(s: State, first: bool)
    requires s.limit > 0 && s.Conserved() && s.connected && s.EndpointUp()
    requires s.clientClosing && !s.history.clientFailed ==> s.disconnected
    ensures EndpointRearms(s, first).Valid()
  {
    assert s.limit > 0 && s.fromEndpoint == "" ==> Below(s.limit, s.fromEndpoint);
  }

  lemma ClientStepSound(s: State, events: Events, input: seq<ReadResult>, output: seq<WriteResult>)
    requires s.Valid() && !s.clientClosing
    ensures ClientStep(s, events, input, output).Valid()
  {
    var i := ReadIf(events.pollIn, input);
    var o := WriteIf(events.pollOut, i.status, output, |s.fromEndpoint|);
    ClientMovesConserve(s, i, o);
    var t := ClientMoves(s, i, o);
    if i.status == Ok && o.status == Ok {
      ClientRearmSound(t);
    }
  }

  /** Likewise for the client; it is asked to leave when the endpoint is gone and everything was delivered. */
  lemma ClientRearmSound(s: State)
    requires s.limit > 0 && s.Conserved() && !(s.connected && s.disconnected) && !s.clientClosing
    requires !s.connected && s.EndpointUp() ==> s.endpointMask.pollOut
    ensures ClientRearms(s).Valid()
  {
    assert s.fromEndpoint == "" ==> s.history.toClient + "" == s.history.toClient;
  }

  lemma NextSound(s: State, step: Step)
    requires s.Valid()
    ensures Next(s, step).Valid()
  {
    if s.Enabled(step) {
      match step
      case EndpointReady(events, peer, input, output) => EndpointStepSound(s, events, peer, input, output);
      case ClientReady(events, input, output) => ClientStepSound(s, events, input, output);
      case EndpointDisposed =>
    }
  }

  lemma {:induction false} ExecSound(s: State, steps: seq<Step>)
    requires s.Valid()
    ensures Exec(s, steps).Valid()
    decreases |steps|
  {
    if steps != [] {
      NextSound(s, steps[0]);
      ExecSound(Next(s, steps[0]), steps[1..]);
    }
  }

  // ------------------------------------------------------------------ backpressure

  /** An endpoint that is up is asked for more only while less than the limit is queued for the client. */
  predicate EndpointHeld(s: State) {
    s.limit > 0 && (s.EndpointUp() && s.endpointMask.pollIn ==> |s.fromEndpoint| < s.limit)
  }

  /** Likewise for the client; a lost connection is never made again. */
  predicate ClientHeld(s: State) {
    && s.limit > 0 && (s.connected || s.disconnected)
    && (!s.clientClosing && s.clientMask.pollIn ==> |s.toEndpoint| < s.limit)
  }

  lemma StepHolds(s: State, step: Step)
    ensures EndpointHeld(s) ==> EndpointHeld(Next(s, step))
    ensures ClientHeld(s) ==> ClientHeld(Next(s, step))
    ensures s.limit > 0 && (s.connected || s.disconnected) && step.ClientReady? && !s.clientClosing ==>
      ClientHeld(Next(s, step))
  {
  }

  lemma {:induction false} ExecHolds(s: State, steps: seq<Step>)
    ensures EndpointHeld(s) ==> EndpointHeld(Exec(s, steps))
    ensures ClientHeld(s) ==> ClientHeld(Exec(s, steps))
    decreases |steps|
  {
    if steps != [] {
      StepHolds(s, steps[0]);
      ExecHolds(Next(s, steps[0]), steps[1..]);
    }
  }

  /** In every run the endpoint is armed for input only while the queue to the client is below the limit, and so is
      the client from its first handler run after the connection was made. */
  lemma HeldBack(request: string, limit: nat, mask: Events, steps: seq<Step>, run: Step, more: seq<Step>)
    ensures EndpointHeld(Exec(Initial(request, limit, mask), steps))
    ensures var t := Exec(Initial(request, limit, mask), steps);
      (t.connected || t.disconnected) && run.ClientReady? && !t.clientClosing ==> ClientHeld(Exec(Next(t, run), more))
  {
    var s := Initial(request, limit, mask);
    var t := Exec(s, steps);
    ExecHolds(s, steps);
    StepHolds(t, run);
    ExecHolds(Next(t, run), more);
  }

  // ------------------------------------------------------------------ what comes in, by the scripts alone

  /** The answers of a step's reads from which the client's handler takes data. */
  function FromClient(step: Step): seq<ReadResult> {
    if step.ClientReady? && step.events.pollIn then step.input[..ReadsHeeded(step.input)] else []
  }

  function FromEndpoint(step: Step): seq<ReadResult> {
    if step.EndpointReady? && step.events.pollIn then step.input[..ReadsHeeded(step.input)] else []
  }

  /** All answers of the client's socket that hold what it says, in the order of the steps. */
  function ClientAnswers(steps: seq<Step>): seq<ReadResult> {
    if steps == [] then [] else FromClient(steps[0]) + ClientAnswers(steps[1..])
  }

  function EndpointAnswers(steps: seq<Step>): seq<ReadResult> {
    if steps == [] then [] else FromEndpoint(steps[0]) + EndpointAnswers(steps[1..])
  }

  /** All that the client's socket offers. */
  function ClientSays(steps: seq<Step>): string {
    Received(ClientAnswers(steps))
  }

  /** All that the endpoint's socket offers. */
  function EndpointSays(steps: seq<Step>): string {
    Received(EndpointAnswers(steps))
  }

  /** `said` is the data of the answers, each behind the data of those in front of it. */
  ghost predicate SaidInOrder(said: string, answers: seq<ReadResult>) {
    && |said| == Size(answers)
    && forall i :: 0 <= i < |answers| && answers[i].Data? ==>
      var at := Size(answers[..i]);
      at + |answers[i].bytes| <= |said| && said[at..at + |answers[i].bytes|] == answers[i].bytes
  }

  lemma InOrder(answers: seq<ReadResult>)
    ensures SaidInOrder(Received(answers), answers)
  {
    var said := Received(answers);
    ReceivedSize(answers);
    forall i | 0 <= i < |answers| && answers[i].Data?
      ensures var at := Size(answers[..i]);
        at + |answers[i].bytes| <= |said| && said[at..at + |answers[i].bytes|] == answers[i].bytes
    {
      var at, n := Size(answers[..i]), |answers[i].bytes|;
      ReceivedAt(answers, i);
      assert said[at..][..n] == said[at..at + n];
    }
  }

  /** Whichever the run, what each side says is the data of the answers that its handler heeds, by position. */
  lemma SaysByPosition(steps: seq<Step>)
    ensures SaidInOrder(ClientSays(steps), ClientAnswers(steps))
    ensures SaidInOrder(EndpointSays(steps), EndpointAnswers(steps))
  {
    InOrder(ClientAnswers(steps));
    InOrder(EndpointAnswers(steps));
  }

  /** `got` grew by the beginning of what was offered, and by all of it while the reader is up. */
  predicate Grew(before: string, got: string, offered: string, up: bool) {
    before <= got <= before + offered && (up ==> got == before + offered)
  }

  lemma GrewSeq(a: string, b: string, c: string, x: string, y: string, up: bool, still: bool)
    requires Grew(a, b, x, up) && Grew(b, c, y, still) && (still ==> up) && (!up ==> c == b)
    ensures Grew(a, c, x + y, still)
  {
    assert (a + x) + y == a + (x + y);
  }

  /** What one or more steps read, where a client that was asked to leave stays so, and an endpoint that is down
      stays down. */
  predicate Took(s: State, t: State, client: string, endpoint: string) {
    && t.history.initial == s.history.initial
    && Grew(s.history.fromClient, t.history.fromClient, client, !t.clientClosing)
    && Grew(s.history.fromEndpoint, t.history.fromEndpoint, endpoint, t.EndpointUp())
    && (s.clientClosing ==> t.clientClosing && t.history.fromClient == s.history.fromClient)
    && (!s.EndpointUp() ==> !t.EndpointUp() && t.history.fromEndpoint == s.history.fromEndpoint)
  }

  lemma TookSeq(s: State, n: State, t: State, a: string, b: string, x: string, y: string)
    requires Took(s, n, a, x) && Took(n, t, b, y)
    ensures Took(s, t, a + b, x + y)
  {
    GrewSeq(s.history.fromClient, n.history.fromClient, t.history.fromClient, a, b, !n.clientClosing, !t.clientClosing);
    GrewSeq(s.history.fromEndpoint, n.history.fromEndpoint, t.history.fromEndpoint, x, y, n.EndpointUp(),
            t.EndpointUp());
  }

  lemma {:induction false} ExecReads(s: State, steps: seq<Step>)
    ensures Took(s, Exec(s, steps), ClientSays(steps), EndpointSays(steps))
    decreases |steps|
  {
    if steps != [] {
      var n := Next(s, steps[0]);
      StepReads(s, steps[0]);
      ExecReads(n, steps[1..]);
      TookSeq(s, n, Exec(s, steps), Received(FromClient(steps[0])), ClientSays(steps[1..]),
              Received(FromEndpoint(steps[0])), EndpointSays(steps[1..]));
      ReceivedJoin(FromClient(steps[0]), ClientAnswers(steps[1..]));
      ReceivedJoin(FromEndpoint(steps[0]), EndpointAnswers(steps[1..]));
    }
  }

  lemma EndpointReads(s: State, events: Events, peer: bool, input: seq<ReadResult>, output: seq<WriteResult>)
    requires s.EndpointUp()
    ensures Took(s, EndpointStep(s, events, peer, input, output), "", ReadIf(events.pollIn, input).bytes)
  {
  }

  lemma ClientReads(s: State, events: Events, input: seq<ReadResult>, output: seq<WriteResult>)
    requires !s.clientClosing
    ensures Took(s, ClientStep(s, events, input, output), ReadIf(events.pollIn, input).bytes, "")
  {
  }

  /** A handler that is not called takes nothing. */
  lemma NotCalled(s: State, step: Step, client: string, endpoint: string)
    requires !s.Enabled(step) && (client != "" ==> step.ClientReady?) && (endpoint != "" ==> step.EndpointReady?)
    ensures Took(s, s, client, endpoint)
  {
  }

  lemma StepReads(s: State, step: Step)
    ensures Took(s, Next(s, step), Received(FromClient(step)), Received(FromEndpoint(step)))
  {
    if !s.Enabled(step) {
      NotCalled(s, step, Received(FromClient(step)), Received(FromEndpoint(step)));
    } else {
      match step
      case EndpointReady(events, peer, input, output) => EndpointReads(s, events, peer, input, output);
      case ClientReady(events, input, output) => ClientReads(s, events, input, output);
      case EndpointDisposed =>
    }
  }

  /** Every interleaving of handler runs, with any answers of the two sockets: what each side was sent is, in
      order, the beginning of what the other side's scripts offer; the rest is queued, or was offered to a handler
      that is no longer called; and no queue is stuck while both sides are up. */
  lemma EveryRun(request: string, limit: nat, mask: Events, steps: seq<Step>)
    ensures var t := Exec(Initial(request, limit, mask), steps);
      && t.Valid()
      && t.history.toEndpoint + t.toEndpoint <= request + ClientSays(steps)
      && t.history.toClient + t.fromEndpoint <= EndpointSays(steps)
      && (!t.clientClosing ==> t.history.toEndpoint + t.toEndpoint == request + ClientSays(steps))
      && (t.EndpointUp() ==> t.history.toClient + t.fromEndpoint == EndpointSays(steps))
      && (t.clientClosing && !t.history.clientFailed ==> t.history.toClient == t.history.fromEndpoint)
  {
    var s := Initial(request, limit, mask);
    assert s.Conserved() by {
      assert "" + request == request + "";
    }
    ExecSound(s, steps);
    ExecReads(s, steps);
    var t := Exec(s, steps);
    assert "" + ClientSays(steps) == ClientSays(steps) && "" + EndpointSays(steps) == EndpointSays(steps);
    assert t.history.fromClient <= ClientSays(steps);
    assert request + t.history.fromClient <= request + ClientSays(steps);
  }

  const OUTPUT := Events(false, true)

  lemma DrainAll(n: nat)
    ensures Drain([Wrote(n)], n) == Written(n, Ok)
  {
    var s := [Wrote(n)];
    TakenJoin([], [], n);
    assert s[..1] == s && (n > 0 ==> WritesHeeded(s) == 1);
  }

  /** Nothing is held back: after every run that leaves both sides up, each side with something queued for it is
      armed for output, and two handler runs whose sockets take all complete the delivery in both directions. */
  lemma EverythingArrives(request: string, limit: nat, mask: Events, steps: seq<Step>)
    requires var t := Exec(Initial(request, limit, mask), steps); t.connected && t.EndpointUp() && !t.clientClosing
    ensures var t := Exec(Initial(request, limit, mask), steps);
      var e := EndpointReady(OUTPUT, true, [], [Wrote(|t.toEndpoint|)]);
      var c := ClientReady(OUTPUT, [], [Wrote(|t.fromEndpoint|)]);
      && (t.toEndpoint != "" ==> t.endpointMask.pollOut) && (t.fromEndpoint != "" ==> t.clientMask.pollOut)
      && Next(Next(t, e), c).history.toEndpoint == request + ClientSays(steps)
      && Next(Next(t, e), c).history.toClient == EndpointSays(steps)
  {
    var t := Exec(Initial(request, limit, mask), steps);
    EveryRun(request, limit, mask, steps);
    DrainAll(|t.toEndpoint|);
    DrainAll(|t.fromEndpoint|);
    var n := Next(t, EndpointReady(OUTPUT, true, [], [Wrote(|t.toEndpoint|)]));
    assert n.fromEndpoint == t.fromEndpoint + "" == t.fromEndpoint;
    assert t.toEndpoint[..|t.toEndpoint|] == t.toEndpoint && t.fromEndpoint[..|t.fromEndpoint|] == t.fromEndpoint;
  }

  // ------------------------------------------------------------------ the handlers

  class Channel {
    const limit: nat
    var toEndpoint: string
    var fromEndpoint: string
    var connected: bool
    var disconnected: bool
    var endpointMask: Events
    var clientMask: Events
    /** A handler asked for its socket to be closed. */
    var endpointClosing: bool
    var clientClosing: bool
    ghost var history: History

    ghost function View(): State
      reads this
    {
      State(limit, toEndpoint, fromEndpoint, connected, disconnected, endpointMask, clientMask, endpointClosing,
            clientClosing, history)
    }

    constructor (request: string, limit: nat, clientMask: Events)
      ensures View() == Initial(request, limit, clientMask)
    {
      this.limit := if limit == 0 then 1024 * 1024 else limit;
      toEndpoint, fromEndpoint, connected, disconnected := request, "", false, false;
      endpointMask, this.clientMask := Events(false, true), clientMask;
      endpointClosing, clientClosing := false, false;
      history := History(request, "", "", "", "", false);
    }

    /** Reads and then writes what is reported ready; an error while reading keeps the handler from writing. */
    method TransferEndpoint(events: Events, input: seq<ReadResult>, output: seq<WriteResult>) returns (rc: Status)
      modifies `fromEndpoint, `toEndpoint, `history
      ensures var i := ReadIf(events.pollIn, input);
        var o := WriteIf(events.pollOut, i.status, output, |old(toEndpoint)|);
        View() == EndpointMoves(old(View()), i, o) && rc == if i.status != Ok then i.status else o.status
    {
      ghost var i := ReadIf(events.pollIn, input);
      ghost var o := WriteIf(events.pollOut, i.status, output, |toEndpoint|);
      history := EndpointMoves(View(), i, o).history;
      rc := Ok;
      if events.pollIn {
        fromEndpoint, rc := ReadLoop(fromEndpoint, input);
        if rc != Ok {
          return;
        }
      }
      if events.pollOut {
        toEndpoint, rc := WriteLoop(toEndpoint, output);
      }
    }

    /** The masks after a run of the endpoint handler without an error. */
    method RearmAfterEndpoint(first: bool)
      modifies `endpointMask, `clientMask
      ensures View() == EndpointRearms(old(View()), first)
    {
      var armClient, ret := Events(first, false), Events(false, first);
      if fromEndpoint != "" {
        armClient := armClient.(pollOut := true);
      }
      if limit == 0 || |fromEndpoint| < limit {
        ret := ret.(pollIn := true);
      }
      if toEndpoint != "" {
        ret := ret.(pollOut := true);
      } else {
        armClient := armClient.(pollIn := true);
      }
      clientMask, endpointMask := Or(clientMask, armClient), ret;
    }

    /** The endpoint's handler. On its first run it settles whether the connection stands. */
    method OnEndpointReady(events: Events, peer: bool, input: seq<ReadResult>, output: seq<WriteResult>)
      requires !endpointClosing && !disconnected
      modifies this
      ensures View() == EndpointStep(old(View()), events, peer, input, output)
      ensures old(View().Valid()) ==> View().Valid()
      ensures endpointClosing <==>
        || (!old(connected) && !peer)
        || (events.pollIn && AfterReads(input) != Ok)
        || (events.pollOut && Drain(output, |old(toEndpoint)|).status != Ok)
    {
      if View().Valid() {
        EndpointStepSound(View(), events, peer, input, output);
      }
      var first := !connected;
      if first {
        if !peer {
          endpointClosing := true;
          return;
        }
        connected := true;
      }
      var rc := TransferEndpoint(events, input, output);
      if rc != Ok {
        endpointClosing := true;
        return;
      }
      RearmAfterEndpoint(first);
    }

    /** Reads and then writes what is reported ready; an error while reading keeps the handler from writing. */
    method TransferClient(events: Events, input: seq<ReadResult>, output: seq<WriteResult>) returns (rc: Status)
      modifies `fromEndpoint, `toEndpoint, `history
      ensures var i := ReadIf(events.pollIn, input);
        var o := WriteIf(events.pollOut, i.status, output, |old(fromEndpoint)|);
        View() == ClientMoves(old(View()), i, o) && rc == if i.status != Ok then i.status else o.status
    {
      ghost var i := ReadIf(events.pollIn, input);
      ghost var o := WriteIf(events.pollOut, i.status, output, |fromEndpoint|);
      history := ClientMoves(View(), i, o).history;
      rc := Ok;
      if events.pollIn {
        toEndpoint, rc := ReadLoop(toEndpoint, input);
        if rc != Ok {
          return;
        }
      }
      if events.pollOut {
        fromEndpoint, rc := WriteLoop(fromEndpoint, output);
      }
    }

    /** The masks after a run of the client's handler without an error. */
    method RearmAfterClient()
      modifies `endpointMask, `clientMask, `clientClosing
      ensures View() == ClientRearms(old(View()))
    {
      var armEndpoint, ret := NO_EVENTS, NO_EVENTS;
      if connected && toEndpoint != "" {
        armEndpoint := armEndpoint.(pollOut := true);
      }
      if limit == 0 || |toEndpoint| < limit {
        ret := ret.(pollIn := true);
      }
      if fromEndpoint != "" {
        ret := ret.(pollOut := true);
      } else if disconnected {
        clientClosing := true;
      } else {
        armEndpoint := armEndpoint.(pollIn := true);
      }
      clientMask, endpointMask := ret, Or(endpointMask, armEndpoint);
    }

    /** The client's handler. */
    method OnClientReady(events: Events, input: seq<ReadResult>, output: seq<WriteResult>)
      requires !clientClosing
      modifies this
      ensures View() == ClientStep(old(View()), events, input, output)
      ensures old(View().Valid()) ==> View().Valid()
      ensures clientClosing <==>
        || (events.pollIn && AfterReads(input) != Ok)
        || (events.pollOut && Drain(output, |old(fromEndpoint)|).status != Ok)
        || (disconnected && fromEndpoint == "")
    {
      if View().Valid() {
        ClientStepSound(View(), events, input, output);
      }
      var rc := TransferClient(events, input, output);
      if rc != Ok {
        clientClosing, history := true, history.(clientFailed := true);
        return;
      }
      RearmAfterClient();
    }

    /** The endpoint's socket is gone: the client is armed to take the rest of what came from it. */
    method OnEndpointDispose()
      modifies `connected, `disconnected, `clientMask
      ensures View() == DisposeStep(old(View()))
      ensures !connected && disconnected && clientMask.pollOut && !View().EndpointUp()
      ensures old(View().Valid()) ==> View().Valid()
    {
      connected, disconnected := false, true;
      clientMask := Or(clientMask, Events(false, true));
    }

    method Take(s: Step)
      modifies this
      ensures View() == Next(old(View()), s)
    {
      match s
      case EndpointReady(events, peer, input, output) =>
        if !endpointClosing && !disconnected {
          OnEndpointReady(events, peer, input, output);
        }
      case ClientReady(events, input, output) =>
        if !clientClosing {
          OnClientReady(events, input, output);
        }
      case EndpointDisposed => OnEndpointDispose();
    }
  }

  /** The handlers, in any order and with any answers of the two sockets, compute the run of the state machine. */
  method Interleave(request: string, limit: nat, mask: Events, steps: seq<Step>) returns (c: Channel)
    ensures c.View() == Exec(Initial(request, limit, mask), steps) && c.View().Valid()
    ensures !c.clientClosing ==> c.history.toEndpoint + c.toEndpoint == request + ClientSays(steps)
    ensures c.View().EndpointUp() ==> c.history.toClient + c.fromEndpoint == EndpointSays(steps)
    ensures c.history.toEndpoint <= request + ClientSays(steps) && c.history.toClient <= EndpointSays(steps)
  {
    c := new Channel(request, limit, mask);
    for i := 0 to |steps|
      invariant c.View() == Exec(Initial(request, limit, mask), steps[..i]) && fresh(c)
    {
      c.Take(steps[i]);
      ExecSnoc(Initial(request, limit, mask), steps[..i], steps[i]);
      assert steps[..i + 1] == steps[..i] + [steps[i]];
    }
    assert steps[..|steps|] == steps;
    EveryRun(request, limit, mask, steps);
  }
}
