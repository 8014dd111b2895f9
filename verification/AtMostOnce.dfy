/** At-most-once execution in timed runs: the handler runs at most once per request. */
module AtMostOnce {
  import opened Bytes
  import opened Options
  import opened Session
  import Frame
  import RpcRuns
  import RpcLedger
  import opened RpcSteps
  import opened Network
  import opened Genuine
  import opened Timing

  /** What is to be shown of the receiver `at` of a delivery, and of the others. */
  ghost predicate Received(nodes: map<Endpoint, State>, at: Endpoint, t: State, out: Out, c: Frame.Cipher, calls: set<Call>,
                           handled: multiset<(Endpoint, Key)>, now: nat, retry: Word) {
    && NodeTimed(t, at, c, calls, now, retry) && NodeCovers(t, at, calls, handled, now)
    && (forall q :: q in NewPackets(at, out, now) ==> PacketTimed(q, c, calls, retry))
    && HandledOnce(calls, handled)
    && (forall e :: e in nodes && e != at ==> NodeCovers(nodes[e], e, calls, handled, now))
  }

  lemma DeliverTimed(n: Net, c: Frame.Cipher, retry: Word, p: Packet, handler: Option<Buf>)
    requires Valid(n) && AllGenuine(n, c) && AllTimed(n, c, retry) && RpcLedger.ProperRetry(retry)
    requires Enabled(n, Deliver(p, handler)) && Timely(n, c, Deliver(p, handler))
    ensures var (t, out) := RpcRuns.Do(n.nodes[p.dst], c, RpcRuns.Receive(p.src, p.frame, handler));
            Received(n.nodes, p.dst, t, out, c, n.calls, n.handled + NewHandled(n, c, Deliver(p, handler)), n.now, retry)
  {
    if RunsHandler(n, c, p) {
      FirstHandling(n, c, retry, p);
      ReceiveAccepted(n.nodes, p, c, n.calls, n.handled, n.now, retry, handler.value);
    } else {
      assert n.handled + multiset{} == n.handled;
      ReceiveOther(n.nodes, p, c, n.calls, n.handled, n.now, retry, handler);
    }
  }

  lemma ReceiveAccepted(nodes: map<Endpoint, State>, p: Packet, c: Frame.Cipher, calls: set<Call>,
                        handled: multiset<(Endpoint, Key)>, now: nat, retry: Word, buf: Buf)
    requires p.dst in nodes && |p.frame| >= 3 && RpcRuns.Good(nodes[p.dst]) && RpcLedger.ProperRetry(retry) && buf.prefix >= 3
    requires NodesTimed(nodes, c, calls, now, retry) && NodesCover(nodes, calls, handled, now) && CallsPast(calls, now)
    requires HandledOnce(calls, handled)
    requires Frame.Open(c, p.frame).command == Frame.REQUEST
    requires var key := Key(p.src, Frame.Open(c, p.frame).id);
             key !in nodes[p.dst].replying && (p.dst, key) !in handled && HasCall(calls, key.endpoint, key.id)
    ensures var (t, out) := RpcRuns.Do(nodes[p.dst], c, RpcRuns.Receive(p.src, p.frame, Some(buf)));
            Received(nodes, p.dst, t, out, c, calls,
                     handled + multiset{(p.dst, Key(p.src, Frame.Open(c, p.frame).id))}, now, retry)
  {
    var key := Key(p.src, Frame.Open(c, p.frame).id);
    AcceptTimed(nodes[p.dst], p.dst, c, calls, handled, now, retry, key, buf);
    OneMoreHandled(nodes, p.dst, calls, handled, now, key);
    assert RpcRuns.Do(nodes[p.dst], c, RpcRuns.Receive(p.src, p.frame, Some(buf))) ==
           FeedRequest(nodes[p.dst], c, key, Some(buf));
  }

  lemma ReceiveOther(nodes: map<Endpoint, State>, p: Packet, c: Frame.Cipher, calls: set<Call>,
                     handled: multiset<(Endpoint, Key)>, now: nat, retry: Word, handler: Option<Buf>)
    requires p.dst in nodes && |p.frame| >= 3 && RpcRuns.Good(nodes[p.dst]) && RpcLedger.ProperRetry(retry)
    requires NodesTimed(nodes, c, calls, now, retry) && NodesCover(nodes, calls, handled, now) && HandledOnce(calls, handled)
    requires var m := Frame.Open(c, p.frame);
             !(m.command == Frame.REQUEST && Key(p.src, m.id) !in nodes[p.dst].replying)
    ensures var (t, out) := RpcRuns.Do(nodes[p.dst], c, RpcRuns.Receive(p.src, p.frame, handler));
            Received(nodes, p.dst, t, out, c, calls, handled, now, retry)
  {
    var s, m := nodes[p.dst], Frame.Open(c, p.frame);
    OthersCover(nodes, p.dst, calls, handled, now);
    ReplyOrNothing(s, c, p.src, p.frame, handler);
    if m.command == Frame.REPLY && m.id in s.requesting {
      ReplyReceived(s, p.dst, c, calls, handled, now, retry, s.requesting[m.id], m.content);
    }
  }

  /** What a frame does that does not make the handler run. */
  lemma ReplyOrNothing(s: State, c: Frame.Cipher, from: Endpoint, frame: seq<Byte>, handler: Option<Buf>)
    requires RpcRuns.Good(s) && |frame| >= 3
    requires var m := Frame.Open(c, frame); !(m.command == Frame.REQUEST && Key(from, m.id) !in s.replying)
    ensures var m := Frame.Open(c, frame);
            RpcRuns.Do(s, c, RpcRuns.Receive(from, frame, handler)) ==
              if m.command == Frame.REPLY && m.id in s.requesting then FeedReply(s, s.requesting[m.id], m.content)
              else (s, SILENT)
  {
  }

  lemma OthersCover(nodes: map<Endpoint, State>, at: Endpoint, calls: set<Call>, handled: multiset<(Endpoint, Key)>, now: nat)
    requires NodesCover(nodes, calls, handled, now)
    ensures forall e :: e in nodes && e != at ==> NodeCovers(nodes[e], e, calls, handled, now)
  {
  }

  lemma OneMoreHandled(nodes: map<Endpoint, State>, at: Endpoint, calls: set<Call>, handled: multiset<(Endpoint, Key)>, now: nat, key: Key)
    requires NodesCover(nodes, calls, handled, now) && HandledOnce(calls, handled)
    requires (at, key) !in handled && HasCall(calls, key.endpoint, key.id)
    ensures HandledOnce(calls, handled + multiset{(at, key)})
    ensures forall e :: e in nodes && e != at ==> NodeCovers(nodes[e], e, calls, handled + multiset{(at, key)}, now)
  {
    forall e | e in nodes && e != at ensures NodeCovers(nodes[e], e, calls, handled + multiset{(at, key)}, now) {
      assert NodeCovers(nodes[e], e, calls, handled, now);
    }
  }

  lemma FireTimed(n: Net, c: Frame.Cipher, retry: Word, at: Endpoint, k: Continuation, failed: bool)
    requires Valid(n) && AllTimed(n, c, retry) && RpcLedger.ProperRetry(retry)
    requires Enabled(n, Fire(at, k, failed)) && Timely(n, c, Fire(at, k, failed))
    ensures var (t, out) := RpcRuns.Do(n.nodes[at], c, RpcRuns.Fire(k, failed, n.now));
            && NodeTimed(t, at, c, n.calls, n.now, retry) && NodeCovers(t, at, n.calls, n.handled, n.now)
            && forall q :: q in NewPackets(at, out, n.now) ==> PacketTimed(q, c, n.calls, retry)
  {
    var s := n.nodes[at];
    assert NodeTimed(s, at, c, n.calls, n.now, retry);
    assert NodeCovers(s, at, n.calls, n.handled, n.now);
    FireNodeTimed(s, at, c, n.calls, n.now, retry, k, failed);
    FireNodeCovers(s, at, c, n.calls, n.handled, n.now, k, failed);
    FirePackets(s, at, c, n.calls, n.now, retry, k, failed);
  }

  lemma FirePackets(s: State, e: Endpoint, c: Frame.Cipher, calls: set<Call>, now: nat, retry: Word, k: Continuation, failed: bool)
    requires RpcRuns.Good(s) && k in s.pending && RpcLedger.ProperRetry(retry) && NodeTimed(s, e, c, calls, now, retry)
    ensures var out := RpcRuns.Do(s, c, RpcRuns.Fire(k, failed, now)).1;
            forall q :: q in NewPackets(e, out, now) ==> PacketTimed(q, c, calls, retry)
  {
    FireKeepsBlock(s, c, k, failed, now);
    RpcRuns.PendingIsLive(s, k);
    var out := RpcRuns.Do(s, c, RpcRuns.Fire(k, failed, now)).1;
    if out.wire.Some? && k.kind == Request {
      forall x | x in calls && x.client == e && x.id == s.blocks[k.ref].id
        ensures now <= x.at + (retry - 2) * SECOND
      {
        assert RpcRuns.IsLive(s, k.ref, Request) && RequestTimed(s, k.ref, x, now);
        RequestFired(s, c, k, failed, now, x);
      }
    }
  }

  lemma NextTimed(n: Net, c: Frame.Cipher, retry: Word, step: Step)
    requires Valid(n) && AllGenuine(n, c) && AllTimed(n, c, retry) && RpcLedger.ProperRetry(retry)
    requires Enabled(n, step) && Timely(n, c, step)
    ensures AllTimed(Next(n, c, step), c, retry)
  {
    match step
    case Tick(d) => NextTick(n, c, retry, d);
    case Send(at, to, buf) => NextSend(n, c, retry, at, to, buf);
    case Deliver(p, handler) => NextDeliver(n, c, retry, p, handler);
    case Fire(at, k, failed) => NextFire(n, c, retry, at, k, failed);
  }

  lemma NextTick(n: Net, c: Frame.Cipher, retry: Word, d: nat)
    requires Valid(n) && AllTimed(n, c, retry) && ClockMayRun(n.nodes, n.now + d)
    ensures AllTimed(Next(n, c, Tick(d)), c, retry)
  {
    TickTimed(n, c, retry, d);
    assert Next(n, c, Tick(d)) == n.(now := n.now + d);
  }

  lemma TickTimed(n: Net, c: Frame.Cipher, retry: Word, d: nat)
    requires AllTimed(n, c, retry) && ClockMayRun(n.nodes, n.now + d)
    ensures AllTimed(n.(now := n.now + d), c, retry)
  {
    NodesTick(n.nodes, c, n.calls, n.now, d, retry);
    CoversTick(n.nodes, n.calls, n.handled, n.now, d);
  }

  lemma NextSend(n: Net, c: Frame.Cipher, retry: Word, at: Endpoint, to: Endpoint, buf: Buf)
    requires Valid(n) && AllGenuine(n, c) && AllTimed(n, c, retry) && RpcLedger.ProperRetry(retry)
    requires at in n.nodes && Timely(n, c, Send(at, to, buf))
    ensures AllTimed(Next(n, c, Send(at, to, buf)), c, retry)
  {
    if buf.prefix >= 3 {
      SendTimed(n, c, retry, at, to, buf);
      assert n.handled + multiset{} == n.handled;
    } else {
      RefusedSend(n, c, Send(at, to, buf));
    }
  }

  lemma NextDeliver(n: Net, c: Frame.Cipher, retry: Word, p: Packet, handler: Option<Buf>)
    requires Valid(n) && AllGenuine(n, c) && AllTimed(n, c, retry) && RpcLedger.ProperRetry(retry)
    requires Enabled(n, Deliver(p, handler)) && Timely(n, c, Deliver(p, handler))
    ensures AllTimed(Next(n, c, Deliver(p, handler)), c, retry)
  {
    var step := Deliver(p, handler);
    var (s, out) := Result(n, c, step);
    assert Received(n.nodes, p.dst, s, out, c, n.calls, n.handled + NewHandled(n, c, step), n.now, retry) by {
      DeliverTimed(n, c, retry, p, handler);
    }
    MoverTimed(n.nodes, n.packets, n.calls, n.handled, n.now, c, retry, p.dst, s, out, n.handled + NewHandled(n, c, step));
    NoNewCalls(n, c, step);
  }

  lemma NoNewCalls(n: Net, c: Frame.Cipher, step: Step)
    requires Valid(n) && Enabled(n, step) && (step.Deliver? || step.Fire?)
    ensures var (s, out) := Result(n, c, step);
            var t := Next(n, c, step);
            && t.nodes == n.nodes[Mover(step) := s] && t.calls == n.calls && t.now == n.now
            && t.packets == n.packets + NewPackets(Mover(step), out, n.now)
            && t.handled == n.handled + NewHandled(n, c, step)
  {
    assert n.calls + {} == n.calls;
  }

  lemma NextFire(n: Net, c: Frame.Cipher, retry: Word, at: Endpoint, k: Continuation, failed: bool)
    requires Valid(n) && AllTimed(n, c, retry) && RpcLedger.ProperRetry(retry)
    requires Enabled(n, Fire(at, k, failed)) && Timely(n, c, Fire(at, k, failed))
    ensures AllTimed(Next(n, c, Fire(at, k, failed)), c, retry)
  {
    var step := Fire(at, k, failed);
    FireTimed(n, c, retry, at, k, failed);
    assert n.handled + multiset{} == n.handled;
    OthersCover(n.nodes, at, n.calls, n.handled, n.now);
    var (s, out) := Result(n, c, step);
    MoverTimed(n.nodes, n.packets, n.calls, n.handled, n.now, c, retry, at, s, out, n.handled);
    NoNewCalls(n, c, step);
  }

  lemma RefusedSend(n: Net, c: Frame.Cipher, step: Step)
    requires Valid(n) && Enabled(n, step) && step.Send? && step.buf.prefix < 3
    ensures Next(n, c, step) == n
  {
    assert n.nodes[step.at := n.nodes[step.at]] == n.nodes;
    assert n.handled + multiset{} == n.handled;
  }

  /** The parts put together, for a step that issues no call. */
  lemma MoverTimed(nodes: map<Endpoint, State>, packets: set<Packet>, calls: set<Call>, before: multiset<(Endpoint, Key)>,
                   now: nat, c: Frame.Cipher, retry: Word, at: Endpoint, s: State, out: Out, handled: multiset<(Endpoint, Key)>)
    requires Timed(nodes, packets, calls, before, now, c, retry) && at in nodes
    requires Received(nodes, at, s, out, c, calls, handled, now, retry)
    ensures Timed(nodes[at := s], packets + NewPackets(at, out, now), calls, handled, now, c, retry)
  {
    NodesUpdated(nodes, at, s, c, calls, now, retry);
  }

  ghost predicate TimelyRun(n: Net, c: Frame.Cipher, steps: seq<Step>)
    requires Valid(n) && EnabledRun(n, c, steps)
    decreases |steps|
  {
    steps != [] ==> Timely(n, c, steps[0]) && TimelyRun(Next(n, c, steps[0]), c, steps[1..])
  }

  lemma {:induction false} RunTimed(n: Net, c: Frame.Cipher, retry: Word, steps: seq<Step>)
    requires Valid(n) && AllGenuine(n, c) && AllTimed(n, c, retry) && RpcLedger.ProperRetry(retry)
    requires EnabledRun(n, c, steps) && TimelyRun(n, c, steps)
    ensures AllTimed(Run(n, c, steps), c, retry)
    decreases |steps|
  {
    if steps != [] {
      NextTimed(n, c, retry, steps[0]);
      NextGenuine(n, c, steps[0]);
      RunTimed(Next(n, c, steps[0]), c, retry, steps[1..]);
    }
  }

  /** In a timely run, the handler of a server runs at most once for each request of each
      client, however many copies arrive. */
  lemma HandledAtMostOnce(endpoints: set<Endpoint>, c: Frame.Cipher, retry: Word, steps: seq<Step>, server: Endpoint, key: Key)
    requires RpcLedger.ProperRetry(retry)
    requires EnabledRun(Start(endpoints, retry), c, steps) && TimelyRun(Start(endpoints, retry), c, steps)
    ensures Run(Start(endpoints, retry), c, steps).handled[(server, key)] <= 1
  {
    RunTimed(Start(endpoints, retry), c, retry, steps);
  }
}
