/** Several RPC endpoints over a network that drops, duplicates and reorders packets, but
    does not forge them: any packet ever sent may be delivered, at any time, to the endpoint
    it was addressed to, any number of times. */
module Network {
  import opened Bytes
  import opened Options
  import opened Session
  import Frame
  import RpcRuns
  import opened RpcSteps

  datatype Packet = Packet(src: Endpoint, dst: Endpoint, frame: seq<Byte>, sentAt: nat)

  /** A request that was sent, and when. */
  datatype Call = Call(client: Endpoint, id: Word, server: Endpoint, content: seq<Byte>, at: nat)

  /** A run of the request handler that produced a reply. */
  datatype Handling = Handling(server: Endpoint, client: Endpoint, id: Word, content: seq<Byte>, reply: seq<Byte>)

  /** A success completion. */
  datatype Answer = Answer(client: Endpoint, id: Word, content: seq<Byte>)

  datatype Net = Net(
    nodes: map<Endpoint, State>, packets: set<Packet>, now: nat,
    calls: set<Call>, handlings: set<Handling>, answers: set<Answer>,
    handled: multiset<(Endpoint, Key)>)

  datatype Step =
    | Send(at: Endpoint, to: Endpoint, buf: Buf)
    | Deliver(p: Packet, handler: Option<Buf>)
    | Fire(at: Endpoint, k: Continuation, failed: bool)
    | Tick(d: nat)

  /** Every buffer to be sent holds at least a header. */
  ghost predicate Headed(s: State) {
    forall r :: r in s.blocks ==> |s.blocks[r].buffer.bytes| >= 3
  }

  ghost predicate Valid(n: Net) {
    && (forall e :: e in n.nodes ==> RpcRuns.Good(n.nodes[e]) && Headed(n.nodes[e]))
    && (forall p :: p in n.packets ==> |p.frame| >= 3)
  }

  predicate Enabled(n: Net, step: Step) {
    match step
    case Send(at, _, _) => at in n.nodes
    case Deliver(p, _) => p in n.packets && p.dst in n.nodes
    case Fire(at, k, _) => at in n.nodes && k in n.nodes[at].pending
    case Tick(_) => true
  }

  /** The endpoint that moves, and its event. */
  function Mover(step: Step): Endpoint
    requires !step.Tick?
  {
    match step
    case Send(at, _, _) => at
    case Deliver(p, _) => p.dst
    case Fire(at, _, _) => at
  }

  function NodeEvent(n: Net, step: Step): RpcRuns.Event
    requires !step.Tick?
  {
    match step
    case Send(_, to, buf) => RpcRuns.SendTo(to, buf)
    case Deliver(p, handler) => RpcRuns.Receive(p.src, p.frame, handler)
    case Fire(_, k, failed) => RpcRuns.Fire(k, failed, n.now)
  }

  /** The delivered packet makes the handler run. */
  predicate RunsHandler(n: Net, c: Frame.Cipher, p: Packet)
    requires p.dst in n.nodes && |p.frame| >= 3
  {
    var m := Frame.Open(c, p.frame);
    m.command == Frame.REQUEST && Key(p.src, m.id) !in n.nodes[p.dst].replying
  }

  ghost function Result(n: Net, c: Frame.Cipher, step: Step): (State, Out)
    requires Valid(n) && Enabled(n, step) && !step.Tick?
  {
    RpcRuns.Do(n.nodes[Mover(step)], c, NodeEvent(n, step))
  }

  function NewPackets(e: Endpoint, out: Out, now: nat): set<Packet> {
    if out.wire.Some? then {Packet(e, out.wire.value.0, out.wire.value.1, now)} else {}
  }

  ghost function NewAnswers(s: State, e: Endpoint, out: Out): set<Answer> {
    if out.answer.Some? && out.answer.value.0 in s.blocks
    then {Answer(e, s.blocks[out.answer.value.0].id, out.answer.value.1)} else {}
  }

  function NewCalls(n: Net, step: Step): set<Call>
    requires Enabled(n, step)
  {
    if step.Send? && step.buf.prefix >= 3
    then {Call(step.at, n.nodes[step.at].nextId, step.to, step.buf.bytes, n.now)} else {}
  }

  function NewHandlings(n: Net, c: Frame.Cipher, step: Step): set<Handling>
    requires Enabled(n, step) && (step.Deliver? ==> |step.p.frame| >= 3)
  {
    if step.Deliver? && RunsHandler(n, c, step.p) && step.handler.Some? && step.handler.value.prefix >= 3
    then
      var m := Frame.Open(c, step.p.frame);
      {Handling(step.p.dst, step.p.src, m.id, m.content, step.handler.value.bytes)}
    else {}
  }

  function NewHandled(n: Net, c: Frame.Cipher, step: Step): multiset<(Endpoint, Key)>
    requires Enabled(n, step) && (step.Deliver? ==> |step.p.frame| >= 3)
  {
    if step.Deliver? && RunsHandler(n, c, step.p)
    then multiset{(step.p.dst, Key(step.p.src, Frame.Open(c, step.p.frame).id))} else multiset{}
  }

  ghost function Next(n: Net, c: Frame.Cipher, step: Step): (t: Net)
    requires Valid(n) && Enabled(n, step)
    ensures Valid(t)
  {
    if step.Tick? then n.(now := n.now + step.d)
    else
      var e := Mover(step);
      var (s, out) := Result(n, c, step);
      WireFrames(n.nodes[e], c, NodeEvent(n, step));
      Net(n.nodes[e := s], n.packets + NewPackets(e, out, n.now), n.now,
          n.calls + NewCalls(n, step), n.handlings + NewHandlings(n, c, step),
          n.answers + NewAnswers(n.nodes[e], e, out), n.handled + NewHandled(n, c, step))
  }

  /** Endpoints that have done nothing yet. */
  ghost function Start(endpoints: set<Endpoint>, retry: Word): (n: Net)
    ensures Valid(n)
  {
    Net(map e | e in endpoints :: RpcRuns.Begin(retry), {}, 0, {}, {}, {}, multiset{})
  }

  ghost predicate EnabledRun(n: Net, c: Frame.Cipher, steps: seq<Step>)
    requires Valid(n)
    decreases |steps|
  {
    steps != [] ==> Enabled(n, steps[0]) && EnabledRun(Next(n, c, steps[0]), c, steps[1..])
  }

  ghost function Run(n: Net, c: Frame.Cipher, steps: seq<Step>): (t: Net)
    requires Valid(n) && EnabledRun(n, c, steps)
    ensures Valid(t)
    decreases |steps|
  {
    if steps == [] then n else Run(Next(n, c, steps[0]), c, steps[1..])
  }

  /** The step does not reuse a request id of its endpoint. */
  predicate FreshId(n: Net, step: Step)
    requires Enabled(n, step)
  {
    step.Send? && step.buf.prefix >= 3 ==>
      forall x | x in n.calls && x.client == step.at :: x.id != n.nodes[step.at].nextId
  }

  ghost predicate FreshRun(n: Net, c: Frame.Cipher, steps: seq<Step>)
    requires Valid(n) && EnabledRun(n, c, steps)
    decreases |steps|
  {
    steps != [] ==> FreshId(n, steps[0]) && FreshRun(Next(n, c, steps[0]), c, steps[1..])
  }

  /** No two calls of a client under one id. */
  ghost predicate OneCallPerId(calls: set<Call>) {
    forall x, y :: x in calls && y in calls && x.client == y.client && x.id == y.id ==> x == y
  }

  // What one endpoint's step can put into blocks, on the wire and into callbacks

  predicate SameMessage(a: Block, b: Block) {
    a.kind == b.kind && a.endpoint == b.endpoint && a.id == b.id && a.buffer.bytes == b.buffer.bytes
  }

  /** `b` is the block that event `e` creates in `s`. */
  predicate Creates(s: State, c: Frame.Cipher, e: RpcRuns.Event, b: Block) {
    match e
    case SendTo(to, buf) =>
      && buf.prefix >= 3 && b.kind == Request && b.endpoint == to && b.id == s.nextId
      && b.buffer.bytes == Frame.Seal(c, Frame.Message(Frame.REQUEST, s.nextId, buf.bytes))
    case Receive(from, frame, handler) =>
      && |frame| >= 3
      && var m := Frame.Open(c, frame);
         && m.command == Frame.REQUEST && Key(from, m.id) !in s.replying
         && handler.Some? && handler.value.prefix >= 3 && b.kind == Reply && b.endpoint == from && b.id == m.id
         && b.buffer.bytes == Frame.Seal(c, Frame.Message(Frame.REPLY, m.id, handler.value.bytes))
    case Fire(_, _, _) => false
  }

  /** A packet for the wire is the message of a block. */
  ghost predicate InBlock(s: State, wire: (Endpoint, seq<Byte>)) {
    exists r :: r in s.blocks && wire == (s.blocks[r].endpoint, s.blocks[r].buffer.bytes)
  }

  lemma WireFrames(s: State, c: Frame.Cipher, e: RpcRuns.Event)
    requires RpcRuns.Good(s) && RpcRuns.Enabled(s, e) && Headed(s)
    ensures var (t, out) := RpcRuns.Do(s, c, e);
            Headed(t) && (out.wire.Some? ==> |out.wire.value.1| >= 3)
  {
    StepBlocks(s, c, e);
  }

  lemma TimerBlocks(s: State, ref: nat, failed: bool)
    requires ref in s.blocks
    ensures var (t, out) := OnTimer(s, ref, failed);
            && (forall r :: r in t.blocks ==> r in s.blocks && SameMessage(t.blocks[r], s.blocks[r]))
            && (out.wire.Some? ==> InBlock(t, out.wire.value))
            && out.answer == None
  {
    var (t, out) := OnTimer(s, ref, failed);
    assert out.wire.Some? ==> out.wire.value == (t.blocks[ref].endpoint, t.blocks[ref].buffer.bytes);
  }

  /** Blocks keep their messages; new ones are as created; what goes on the wire is the
      message of a block. */
  ghost predicate BlocksFrom(s: State, c: Frame.Cipher, e: RpcRuns.Event, t: State, out: Out) {
    && (forall r :: r in t.blocks ==>
          (r in s.blocks && SameMessage(t.blocks[r], s.blocks[r])) ||
          (r == s.nextRef && Creates(s, c, e, t.blocks[r])))
    && (out.wire.Some? ==> InBlock(t, out.wire.value))
  }

  lemma StepBlocks(s: State, c: Frame.Cipher, e: RpcRuns.Event)
    requires RpcRuns.Good(s) && RpcRuns.Enabled(s, e)
    ensures var (t, out) := RpcRuns.Do(s, c, e); BlocksFrom(s, c, e, t, out)
  {
    match e
    case SendTo(to, buf) => SendBlocks(s, c, to, buf);
    case Receive(from, frame, handler) => ReceiveBlocks(s, c, from, frame, handler);
    case Fire(k, failed, now) => FireBlocks(s, c, k, failed, now);
  }

  lemma SendBlocks(s: State, c: Frame.Cipher, to: Endpoint, buf: Buf)
    requires RpcRuns.Good(s)
    ensures var e := RpcRuns.SendTo(to, buf);
            var (t, out) := RpcRuns.Do(s, c, e); BlocksFrom(s, c, e, t, out)
  {
    if buf.prefix >= 3 {
      StartBlocks(s, c, RpcRuns.SendTo(to, buf), SendStart(s, c, to, buf));
    }
  }

  lemma FireBlocks(s: State, c: Frame.Cipher, k: Continuation, failed: bool, now: nat)
    requires RpcRuns.Good(s) && k in s.pending
    ensures var e := RpcRuns.Fire(k, failed, now);
            var (t, out) := RpcRuns.Do(s, c, e); BlocksFrom(s, c, e, t, out)
  {
    RpcRuns.PendingIsLive(s, k);
    var u := s.(pending := s.pending - multiset{k});
    if k.stage == Sending && !failed {
      var t := TimerStarted(u, k.ref, now);
      assert RpcRuns.Do(s, c, RpcRuns.Fire(k, failed, now)) == (t, SILENT);
      assert forall r :: r in t.blocks ==> r in s.blocks && SameMessage(t.blocks[r], s.blocks[r]);
    } else {
      TimerBlocks(u, k.ref, failed);
      assert RpcRuns.Do(s, c, RpcRuns.Fire(k, failed, now)) == OnTimer(u, k.ref, failed);
    }
  }

  lemma StartBlocks(s: State, c: Frame.Cipher, e: RpcRuns.Event, start: State)
    requires s.nextRef in start.blocks && start.blocks == s.blocks[s.nextRef := start.blocks[s.nextRef]]
    requires Creates(s, c, e, start.blocks[s.nextRef])
    ensures var (t, out) := OnTimer(start, s.nextRef, false); BlocksFrom(s, c, e, t, out)
  {
    TimerBlocks(start, s.nextRef, false);
  }

  lemma ReceiveBlocks(s: State, c: Frame.Cipher, from: Endpoint, frame: seq<Byte>, handler: Option<Buf>)
    requires RpcRuns.Good(s) && |frame| >= 3
    ensures var e := RpcRuns.Receive(from, frame, handler);
            var (t, out) := RpcRuns.Do(s, c, e); BlocksFrom(s, c, e, t, out)
  {
    var m := Frame.Open(c, frame);
    if m.command == Frame.REQUEST && Key(from, m.id) !in s.replying && handler.Some? && handler.value.prefix >= 3 {
      StartBlocks(s, c, RpcRuns.Receive(from, frame, handler), ReplyStart(s, c, Key(from, m.id), handler.value));
    }
  }

  /** A callback is answered only by a reply frame under the request's own id. */
  lemma StepAnswer(s: State, c: Frame.Cipher, e: RpcRuns.Event)
    requires RpcRuns.Good(s) && RpcRuns.Enabled(s, e)
    ensures var out := RpcRuns.Do(s, c, e).1;
            out.answer.Some? ==>
              && e.Receive? && out.answer.value.0 in s.blocks
              && var m := Frame.Open(c, e.frame);
                 m.command == Frame.REPLY && m.id == s.blocks[out.answer.value.0].id && m.content == out.answer.value.1
  {
    match e
    case SendTo(to, buf) =>
      if buf.prefix >= 3 {
        TimerBlocks(SendStart(s, c, to, buf), s.nextRef, false);
      }
    case Receive(from, frame, handler) =>
      var m := Frame.Open(c, frame);
      if m.command == Frame.REQUEST && Key(from, m.id) !in s.replying && handler.Some? && handler.value.prefix >= 3 {
        TimerBlocks(ReplyStart(s, c, Key(from, m.id), handler.value), s.nextRef, false);
      }
    case Fire(k, failed, now) =>
      RpcRuns.PendingIsLive(s, k);
      TimerBlocks(s.(pending := s.pending - multiset{k}), k.ref, failed);
  }
}
