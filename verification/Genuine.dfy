/** Replies are genuine: what a request's callback is given was produced by a handler run
    for that very request. */
module Genuine {
  import opened Bytes
  import opened Session
  import Frame
  import opened RpcSteps
  import opened Network

  function CallFrame(c: Frame.Cipher, x: Call): seq<Byte> {
    Frame.Seal(c, Frame.Message(Frame.REQUEST, x.id, x.content))
  }

  function ReplyFrame(c: Frame.Cipher, h: Handling): seq<Byte> {
    Frame.Seal(c, Frame.Message(Frame.REPLY, h.id, h.reply))
  }

  /** A frame from `src` to `dst` that a call put there. */
  ghost predicate ByCall(calls: set<Call>, c: Frame.Cipher, src: Endpoint, dst: Endpoint, frame: seq<Byte>) {
    exists x :: x in calls && x.client == src && x.server == dst && frame == CallFrame(c, x)
  }

  /** A frame from `src` to `dst` that a handler run put there. */
  ghost predicate ByHandling(handlings: set<Handling>, c: Frame.Cipher, src: Endpoint, dst: Endpoint, frame: seq<Byte>) {
    exists h :: h in handlings && h.server == src && h.client == dst && frame == ReplyFrame(c, h)
  }

  ghost predicate BlocksBacked(n: Net, c: Frame.Cipher, e: Endpoint)
    requires e in n.nodes
  {
    forall r :: r in n.nodes[e].blocks ==> Backed(n, c, e, n.nodes[e].blocks[r])
  }

  ghost predicate Backed(n: Net, c: Frame.Cipher, e: Endpoint, b: Block) {
    if b.kind == Request then ByCall(n.calls, c, e, b.endpoint, b.buffer.bytes)
    else ByHandling(n.handlings, c, e, b.endpoint, b.buffer.bytes)
  }

  /** Every handler run was for a call. */
  ghost predicate Called(calls: set<Call>, h: Handling) {
    exists x :: x in calls && x.client == h.client && x.id == h.id && x.server == h.server && x.content == h.content
  }

  /** Every answer is some handler run's reply to that client under that id. */
  ghost predicate Answered(handlings: set<Handling>, a: Answer) {
    exists h :: h in handlings && h.client == a.client && h.id == a.id && h.reply == a.content
  }

  ghost predicate AllGenuine(n: Net, c: Frame.Cipher) {
    && (forall e :: e in n.nodes ==> BlocksBacked(n, c, e))
    && (forall p :: p in n.packets ==>
          ByCall(n.calls, c, p.src, p.dst, p.frame) || ByHandling(n.handlings, c, p.src, p.dst, p.frame))
    && (forall h :: h in n.handlings ==> Called(n.calls, h))
    && (forall a :: a in n.answers ==> Answered(n.handlings, a))
  }

  /** What a delivered packet is, told from its command. */
  lemma Origin(n: Net, c: Frame.Cipher, p: Packet)
    requires Valid(n) && AllGenuine(n, c) && p in n.packets
    ensures var m := Frame.Open(c, p.frame);
            && (m.command == Frame.REQUEST ==> exists x :: x in n.calls && x.client == p.src && x.server == p.dst
                                                           && x.id == m.id && x.content == m.content)
            && (m.command == Frame.REPLY ==> exists h :: h in n.handlings && h.server == p.src && h.client == p.dst
                                                         && h.id == m.id && h.reply == m.content)
  {
    if ByCall(n.calls, c, p.src, p.dst, p.frame) {
      var x :| x in n.calls && x.client == p.src && x.server == p.dst && p.frame == CallFrame(c, x);
      Frame.RoundTrip(c, Frame.Message(Frame.REQUEST, x.id, x.content));
    } else {
      var h :| h in n.handlings && h.server == p.src && h.client == p.dst && p.frame == ReplyFrame(c, h);
      Frame.RoundTrip(c, Frame.Message(Frame.REPLY, h.id, h.reply));
    }
  }

  lemma MoverBacked(n: Net, c: Frame.Cipher, step: Step)
    requires Valid(n) && Enabled(n, step) && !step.Tick? && AllGenuine(n, c)
    ensures BlocksBacked(Next(n, c, step), c, Mover(step))
    ensures forall p :: p in NewPackets(Mover(step), Result(n, c, step).1, n.now) ==>
              ByCall(Next(n, c, step).calls, c, p.src, p.dst, p.frame) ||
              ByHandling(Next(n, c, step).handlings, c, p.src, p.dst, p.frame)
  {
    var e, s := Mover(step), n.nodes[Mover(step)];
    var (u, out) := Result(n, c, step);
    var t := Next(n, c, step);
    StepBlocks(s, c, NodeEvent(n, step));
    assert BlocksBacked(n, c, e);
    forall r | r in u.blocks ensures Backed(t, c, e, u.blocks[r]) {
      if r in s.blocks && SameMessage(u.blocks[r], s.blocks[r]) {
        KeptBacked(n, c, e, s.blocks[r], t);
      } else {
        CreatedBacked(n, c, step, u.blocks[r]);
      }
    }
  }

  lemma KeptBacked(n: Net, c: Frame.Cipher, e: Endpoint, b: Block, t: Net)
    requires n.calls <= t.calls && n.handlings <= t.handlings
    ensures ByCall(n.calls, c, e, b.endpoint, b.buffer.bytes) ==> ByCall(t.calls, c, e, b.endpoint, b.buffer.bytes)
    ensures ByHandling(n.handlings, c, e, b.endpoint, b.buffer.bytes) ==>
              ByHandling(t.handlings, c, e, b.endpoint, b.buffer.bytes)
  {
  }

  lemma CreatedBacked(n: Net, c: Frame.Cipher, step: Step, b: Block)
    requires Valid(n) && Enabled(n, step) && !step.Tick?
    requires Creates(n.nodes[Mover(step)], c, NodeEvent(n, step), b)
    ensures b.kind == Request ==> ByCall(NewCalls(n, step), c, Mover(step), b.endpoint, b.buffer.bytes)
    ensures b.kind == Reply ==> ByHandling(NewHandlings(n, c, step), c, Mover(step), b.endpoint, b.buffer.bytes)
  {
    match step
    case Send(at, to, buf) =>
      var x := Call(at, n.nodes[at].nextId, to, buf.bytes, n.now);
      assert x in NewCalls(n, step) && b.buffer.bytes == CallFrame(c, x);
    case Deliver(p, handler) =>
      var m := Frame.Open(c, p.frame);
      var h := Handling(p.dst, p.src, m.id, m.content, handler.value.bytes);
      assert h in NewHandlings(n, c, step) && b.buffer.bytes == ReplyFrame(c, h);
    case Fire(_, _, _) =>
  }

  lemma NewHandlingsCalled(n: Net, c: Frame.Cipher, step: Step)
    requires Valid(n) && Enabled(n, step) && AllGenuine(n, c)
    ensures forall h :: h in NewHandlings(n, c, step) ==> Called(n.calls, h)
  {
    if step.Deliver? {
      Origin(n, c, step.p);
    }
  }

  lemma NewAnswersAnswered(n: Net, c: Frame.Cipher, step: Step)
    requires Valid(n) && Enabled(n, step) && !step.Tick? && AllGenuine(n, c)
    ensures forall a :: a in NewAnswers(n.nodes[Mover(step)], Mover(step), Result(n, c, step).1) ==>
              Answered(n.handlings, a)
  {
    StepAnswer(n.nodes[Mover(step)], c, NodeEvent(n, step));
    if step.Deliver? {
      ReplyAnswers(n, c, step.p);
    }
  }

  lemma ReplyAnswers(n: Net, c: Frame.Cipher, p: Packet)
    requires Valid(n) && AllGenuine(n, c) && p in n.packets
    ensures var m := Frame.Open(c, p.frame);
            m.command == Frame.REPLY ==> Answered(n.handlings, Answer(p.dst, m.id, m.content))
  {
    Origin(n, c, p);
  }

  lemma NextGenuine(n: Net, c: Frame.Cipher, step: Step)
    requires Valid(n) && Enabled(n, step) && AllGenuine(n, c)
    ensures AllGenuine(Next(n, c, step), c)
  {
    var t := Next(n, c, step);
    if step.Tick? {
      forall e | e in t.nodes ensures BlocksBacked(t, c, e) {
        assert BlocksBacked(n, c, e);
      }
    } else {
      MoverBacked(n, c, step);
      NewHandlingsCalled(n, c, step);
      NewAnswersAnswered(n, c, step);
      OldGenuine(n, c, t);
    }
  }

  /** Records are only added, so what was backed stays backed. */
  lemma OldGenuine(n: Net, c: Frame.Cipher, t: Net)
    requires AllGenuine(n, c) && n.calls <= t.calls && n.handlings <= t.handlings
    ensures forall e :: e in n.nodes && e in t.nodes && t.nodes[e] == n.nodes[e] ==> BlocksBacked(t, c, e)
    ensures forall p :: p in n.packets ==>
              ByCall(t.calls, c, p.src, p.dst, p.frame) || ByHandling(t.handlings, c, p.src, p.dst, p.frame)
    ensures forall h :: Called(n.calls, h) ==> Called(t.calls, h)
    ensures forall a :: Answered(n.handlings, a) ==> Answered(t.handlings, a)
  {
    forall e | e in n.nodes && e in t.nodes && t.nodes[e] == n.nodes[e] ensures BlocksBacked(t, c, e) {
      assert BlocksBacked(n, c, e);
      forall r | r in n.nodes[e].blocks ensures Backed(t, c, e, n.nodes[e].blocks[r]) {
        KeptBacked(n, c, e, n.nodes[e].blocks[r], t);
      }
    }
  }

  lemma {:induction false} RunGenuine(n: Net, c: Frame.Cipher, steps: seq<Step>)
    requires Valid(n) && EnabledRun(n, c, steps) && AllGenuine(n, c)
    ensures AllGenuine(Run(n, c, steps), c)
    decreases |steps|
  {
    if steps != [] {
      NextGenuine(n, c, steps[0]);
      RunGenuine(Next(n, c, steps[0]), c, steps[1..]);
    }
  }

  lemma {:induction false} RunOneCallPerId(n: Net, c: Frame.Cipher, steps: seq<Step>)
    requires Valid(n) && EnabledRun(n, c, steps) && FreshRun(n, c, steps) && OneCallPerId(n.calls)
    ensures OneCallPerId(Run(n, c, steps).calls)
    decreases |steps|
  {
    if steps != [] {
      RunOneCallPerId(Next(n, c, steps[0]), c, steps[1..]);
    }
  }

  /** Over every run of the network: each success completion belongs to a call of that
      client under that id. If no id is reused there is only one, and the bytes are what a
      handler run at the server of the call made of the call's own content. */
  lemma RepliesGenuine(endpoints: set<Endpoint>, retry: Word, c: Frame.Cipher, steps: seq<Step>, a: Answer)
    requires EnabledRun(Start(endpoints, retry), c, steps)
    requires a in Run(Start(endpoints, retry), c, steps).answers
    ensures var n := Run(Start(endpoints, retry), c, steps);
            exists x, h :: x in n.calls && h in n.handlings
                           && x.client == h.client == a.client && x.id == h.id == a.id && x.server == h.server
                           && h.content == x.content && h.reply == a.content
    ensures var n := Run(Start(endpoints, retry), c, steps);
            FreshRun(Start(endpoints, retry), c, steps) ==>
              forall x :: x in n.calls && x.client == a.client && x.id == a.id ==>
                Handling(x.server, x.client, x.id, x.content, a.content) in n.handlings
  {
    RunGenuine(Start(endpoints, retry), c, steps);
    var n := Run(Start(endpoints, retry), c, steps);
    var h :| h in n.handlings && h.client == a.client && h.id == a.id && h.reply == a.content;
    assert Called(n.calls, h);
    var x :| x in n.calls && x.client == h.client && x.id == h.id && x.server == h.server && x.content == h.content;
    if FreshRun(Start(endpoints, retry), c, steps) {
      RunOneCallPerId(Start(endpoints, retry), c, steps);
    }
  }
}
