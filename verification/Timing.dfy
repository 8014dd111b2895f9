/** At-most-once execution in timed runs: the reply entry of a handled request outlives
    every transmission of that request. */
module Timing {
  import opened Bytes
  import opened Options
  import opened Session
  import Frame
  import RpcRuns
  import RpcLedger
  import opened RpcSteps
  import opened Network
  import opened Genuine

  /** The assumptions on time, step by step. No id is reused. A packet that makes the
      handler run arrives less than a timer period after it was sent, and the handler
      accepts. Sends of replies do not fail, and their timers do not fire early. Sends of
      requests complete at once and their timers fire on time: the clock does not run while
      one is under way, nor past a timer. */
  ghost predicate Timely(n: Net, c: Frame.Cipher, step: Step)
    requires Valid(n) && Enabled(n, step)
  {
    match step
    case Send(_, _, _) => FreshId(n, step)
    case Deliver(p, handler) =>
      RunsHandler(n, c, p) ==> n.now < p.sentAt + SECOND && handler.Some? && handler.value.prefix >= 3
    case Fire(at, k, failed) =>
      k.kind == Reply ==> !failed && (k.stage == Waiting && k.ref in n.nodes[at].blocks ==> n.now >= n.nodes[at].blocks[k.ref].expiry)
    case Tick(d) => ClockMayRun(n.nodes, n.now + d)
  }

  ghost predicate ClockMayRun(nodes: map<Endpoint, State>, until: nat) {
    forall e, r :: e in nodes && RpcRuns.IsLive(nodes[e], r, Request) ==>
      !IsSending(nodes[e], r) && until <= nodes[e].blocks[r].expiry
  }

  predicate IsSending(s: State, r: nat) {
    r in s.blocks && Continuation(r, s.blocks[r].kind, Sending) in s.pending
  }

  /** After `retry - remain` transmissions of call `x`, the last was that many periods less
      one after the call, or sooner; while the timer runs, it is due a period later. */
  predicate RequestTimed(s: State, r: nat, x: Call, now: nat)
    requires r in s.blocks
  {
    var b := s.blocks[r];
    && 0 <= b.remain < s.retry as int
    && (b.remain > 0 ==>
          if IsSending(s, r) then now <= x.at + (s.retry - 1 - b.remain) * SECOND
          else now <= b.expiry <= x.at + (s.retry - b.remain) * SECOND)
  }

  /** The same for the reply's transmissions, from below. */
  predicate ReplyTimed(s: State, r: nat, x: Call, now: nat)
    requires r in s.blocks
  {
    var b := s.blocks[r];
    && 1 <= b.remain < s.retry as int
    && if IsSending(s, r) then now >= x.at + (s.retry - 1 - b.remain) * SECOND
       else b.expiry >= x.at + (s.retry - b.remain) * SECOND
  }

  /** A handled call still has its reply entry, or none of its copies is left to arrive. */
  predicate Covered(s: State, x: Call, now: nat) {
    || now >= x.at + (s.retry - 1) * SECOND
    || (Key(x.client, x.id) in s.replying && s.replying[Key(x.client, x.id)] in s.blocks
        && ReplyTimed(s, s.replying[Key(x.client, x.id)], x, now))
  }

  ghost predicate HasCall(calls: set<Call>, e: Endpoint, id: Word) {
    exists x :: x in calls && x.client == e && x.id == id
  }

  /** Frames in blocks carry the block's kind and id. */
  predicate Labelled(c: Frame.Cipher, b: Block) {
    && |b.buffer.bytes| >= 3
    && Frame.Open(c, b.buffer.bytes).id == b.id
    && Frame.Open(c, b.buffer.bytes).command == if b.kind == Request then Frame.REQUEST else Frame.REPLY
  }

  ghost predicate NodeTimed(s: State, e: Endpoint, c: Frame.Cipher, calls: set<Call>, now: nat, retry: Word) {
    && s.retry == retry
    && (forall r :: r in s.blocks ==> Labelled(c, s.blocks[r]))
    && (forall r :: RpcRuns.IsLive(s, r, Request) ==> HasCall(calls, e, s.blocks[r].id))
    && (forall r, x :: RpcRuns.IsLive(s, r, Request) && x in calls && x.client == e && x.id == s.blocks[r].id ==>
          RequestTimed(s, r, x, now))
  }

  ghost predicate NodeCovers(s: State, e: Endpoint, calls: set<Call>, handled: multiset<(Endpoint, Key)>, now: nat) {
    forall x :: x in calls && (e, Key(x.client, x.id)) in handled ==> Covered(s, x, now)
  }

  /** No copy of a request was sent later than its last transmission was due. */
  ghost predicate PacketTimed(p: Packet, c: Frame.Cipher, calls: set<Call>, retry: Word) {
    |p.frame| >= 3 && Frame.Open(c, p.frame).command == Frame.REQUEST ==>
      forall x :: x in calls && x.client == p.src && x.id == Frame.Open(c, p.frame).id ==>
        p.sentAt <= x.at + (retry - 2) * SECOND
  }

  ghost predicate HandledOnce(calls: set<Call>, handled: multiset<(Endpoint, Key)>) {
    forall h :: h in handled ==> handled[h] == 1 && HasCall(calls, h.1.endpoint, h.1.id)
  }

  ghost predicate NodesTimed(nodes: map<Endpoint, State>, c: Frame.Cipher, calls: set<Call>, now: nat, retry: Word) {
    forall e :: e in nodes ==> NodeTimed(nodes[e], e, c, calls, now, retry)
  }

  ghost predicate NodesCover(nodes: map<Endpoint, State>, calls: set<Call>, handled: multiset<(Endpoint, Key)>, now: nat) {
    forall e :: e in nodes ==> NodeCovers(nodes[e], e, calls, handled, now)
  }

  ghost predicate PacketsTimed(packets: set<Packet>, c: Frame.Cipher, calls: set<Call>, retry: Word) {
    forall p :: p in packets ==> PacketTimed(p, c, calls, retry)
  }

  ghost predicate CallsPast(calls: set<Call>, now: nat) {
    forall x :: x in calls ==> x.at <= now
  }

  ghost predicate Timed(nodes: map<Endpoint, State>, packets: set<Packet>, calls: set<Call>,
                        handled: multiset<(Endpoint, Key)>, now: nat, c: Frame.Cipher, retry: Word) {
    && CallsPast(calls, now)
    && NodesTimed(nodes, c, calls, now, retry)
    && NodesCover(nodes, calls, handled, now)
    && PacketsTimed(packets, c, calls, retry)
    && HandledOnce(calls, handled)
  }

  ghost predicate AllTimed(n: Net, c: Frame.Cipher, retry: Word) {
    Timed(n.nodes, n.packets, n.calls, n.handled, n.now, c, retry)
  }

  // The clock

  lemma NodesTick(nodes: map<Endpoint, State>, c: Frame.Cipher, calls: set<Call>, now: nat, d: nat, retry: Word)
    requires NodesTimed(nodes, c, calls, now, retry)
    requires ClockMayRun(nodes, now + d)
    ensures NodesTimed(nodes, c, calls, now + d, retry)
  {
    forall e | e in nodes ensures NodeTimed(nodes[e], e, c, calls, now + d, retry) {
      var s := nodes[e];
      assert NodeTimed(s, e, c, calls, now, retry);
      forall r, x | RpcRuns.IsLive(s, r, Request) && x in calls && x.client == e && x.id == s.blocks[r].id
        ensures RequestTimed(s, r, x, now + d)
      {
        assert RequestTimed(s, r, x, now);
      }
    }
  }

  lemma CoversTick(nodes: map<Endpoint, State>, calls: set<Call>, handled: multiset<(Endpoint, Key)>, now: nat, d: nat)
    requires NodesCover(nodes, calls, handled, now)
    ensures NodesCover(nodes, calls, handled, now + d)
  {
    forall e | e in nodes ensures NodeCovers(nodes[e], e, calls, handled, now + d) {
      assert NodeCovers(nodes[e], e, calls, handled, now);
      forall x | x in calls && (e, Key(x.client, x.id)) in handled ensures Covered(nodes[e], x, now + d) {
        assert Covered(nodes[e], x, now);
      }
    }
  }

  // One endpoint

  /** Between `s` and `t` no block but `ref` changes. */
  ghost predicate OnlyRef(s: State, t: State, ref: nat) {
    && t.retry == s.retry
    && (forall r: nat :: r != ref ==> (r in t.blocks <==> r in s.blocks))
    && (forall r: nat :: r != ref && r in s.blocks ==> t.blocks[r] == s.blocks[r] && (IsSending(t, r) <==> IsSending(s, r)))
  }

  lemma TimerOnlyRef(s: State, ref: nat, failed: bool)
    requires ref in s.blocks
    ensures OnlyRef(s, OnTimer(s, ref, failed).0, ref)
  {
    RpcRuns.TimerShape(s, ref, failed);
    OnlyRefOfShape(s, OnTimer(s, ref, failed).0, ref);
  }

  lemma OnlyRefOfShape(s: State, t: State, ref: nat)
    requires ref in s.blocks && (t == SendAgain(s, ref).0 || t == Dropped(s, ref))
    ensures OnlyRef(s, t, ref)
  {
  }

  lemma FireOnlyRef(s: State, c: Frame.Cipher, k: Continuation, failed: bool, now: nat)
    requires RpcRuns.Good(s) && k in s.pending
    ensures OnlyRef(s, RpcRuns.Do(s, c, RpcRuns.Fire(k, failed, now)).0, k.ref)
  {
    RpcRuns.PendingIsLive(s, k);
    var u := s.(pending := s.pending - multiset{k});
    if k.stage == Sending && !failed {
      StartedOnlyRef(s, k, now);
    } else {
      TimerOnlyRef(u, k.ref, failed);
      OnlyRefTrans(s, k, OnTimer(u, k.ref, failed).0);
    }
  }

  lemma StartedOnlyRef(s: State, k: Continuation, now: nat)
    requires k.ref in s.blocks
    ensures OnlyRef(s, TimerStarted(s.(pending := s.pending - multiset{k}), k.ref, now), k.ref)
  {
  }

  lemma OnlyRefTrans(s: State, k: Continuation, t: State)
    requires OnlyRef(s.(pending := s.pending - multiset{k}), t, k.ref)
    ensures OnlyRef(s, t, k.ref)
  {
  }

  /** The stage of a block is that of its one callback. */
  lemma StageOf(s: State, k: Continuation)
    requires RpcRuns.Good(s) && k in s.pending
    ensures RpcRuns.IsLive(s, k.ref, k.kind) && (IsSending(s, k.ref) <==> k.stage == Sending)
    ensures Continuation(k.ref, k.kind, Sending) !in s.pending - multiset{k}
  {
    RpcRuns.PendingIsLive(s, k);
    RpcRuns.OfTwoStages(k);
    assert RpcRuns.OneCallback(s, k.ref);
  }

  lemma RequestFired(s: State, c: Frame.Cipher, k: Continuation, failed: bool, now: nat, x: Call)
    requires RpcRuns.Good(s) && k in s.pending && k.kind == Request && RpcLedger.ProperRetry(s.retry)
    requires k.ref in s.blocks && RequestTimed(s, k.ref, x, now)
    ensures var (t, out) := RpcRuns.Do(s, c, RpcRuns.Fire(k, failed, now));
            && (k.ref in t.blocks ==> RequestTimed(t, k.ref, x, now))
            && (out.wire.Some? ==> now <= x.at + (s.retry - 2) * SECOND)
  {
    StageOf(s, k);
  }

  lemma ReplyFired(s: State, c: Frame.Cipher, k: Continuation, now: nat, x: Call)
    requires RpcRuns.Good(s) && k in s.pending && k.kind == Reply && RpcLedger.ProperRetry(s.retry)
    requires k.ref in s.blocks && ReplyTimed(s, k.ref, x, now)
    requires k.stage == Waiting ==> now >= s.blocks[k.ref].expiry
    ensures var (t, out) := RpcRuns.Do(s, c, RpcRuns.Fire(k, false, now));
            if k.ref in t.blocks then ReplyTimed(t, k.ref, x, now) else now >= x.at + (s.retry - 1) * SECOND
  {
    StageOf(s, k);
  }

  lemma StepLabelled(s: State, c: Frame.Cipher, e: RpcRuns.Event)
    requires RpcRuns.Good(s) && RpcRuns.Enabled(s, e)
    requires forall r :: r in s.blocks ==> Labelled(c, s.blocks[r])
    ensures var (t, out) := RpcRuns.Do(s, c, e); forall r :: r in t.blocks ==> Labelled(c, t.blocks[r])
  {
    StepBlocks(s, c, e);
    var t := RpcRuns.Do(s, c, e).0;
    forall r | r in t.blocks ensures Labelled(c, t.blocks[r]) {
      if !(r in s.blocks && SameMessage(t.blocks[r], s.blocks[r])) {
        CreatedLabelled(s, c, e, t.blocks[r]);
      }
    }
  }

  lemma CreatedLabelled(s: State, c: Frame.Cipher, e: RpcRuns.Event, b: Block)
    requires Creates(s, c, e, b)
    ensures Labelled(c, b)
  {
    match e
    case SendTo(_, buf) => Frame.RoundTrip(c, Frame.Message(Frame.REQUEST, s.nextId, buf.bytes));
    case Receive(_, frame, handler) =>
      Frame.RoundTrip(c, Frame.Message(Frame.REPLY, Frame.Open(c, frame).id, handler.value.bytes));
    case Fire(_, _, _) =>
  }

  lemma NodeTimedOnly(s: State, t: State, ref: nat, e: Endpoint, c: Frame.Cipher, calls: set<Call>, now: nat, retry: Word)
    requires NodeTimed(s, e, c, calls, now, retry) && OnlyRef(s, t, ref)
    requires forall r :: r in t.blocks ==> Labelled(c, t.blocks[r])
    requires RpcRuns.IsLive(t, ref, Request) ==> HasCall(calls, e, t.blocks[ref].id)
    requires forall x :: RpcRuns.IsLive(t, ref, Request) && x in calls && x.client == e && x.id == t.blocks[ref].id ==>
               RequestTimed(t, ref, x, now)
    ensures NodeTimed(t, e, c, calls, now, retry)
  {
    forall r | RpcRuns.IsLive(t, r, Request) ensures HasCall(calls, e, t.blocks[r].id) {
      assert r != ref ==> RpcRuns.IsLive(s, r, Request);
    }
    forall r, x | RpcRuns.IsLive(t, r, Request) && x in calls && x.client == e && x.id == t.blocks[r].id
      ensures RequestTimed(t, r, x, now)
    {
      if r != ref {
        assert RpcRuns.IsLive(s, r, Request) && RequestTimed(s, r, x, now);
      }
    }
  }

  /** Entries that are not `ref`'s cover what they covered. */
  lemma CoveredOnly(s: State, t: State, ref: nat, x: Call, now: nat)
    requires OnlyRef(s, t, ref) && Covered(s, x, now)
    requires Key(x.client, x.id) in s.replying && s.replying[Key(x.client, x.id)] != ref ==>
               Key(x.client, x.id) in t.replying && t.replying[Key(x.client, x.id)] == s.replying[Key(x.client, x.id)]
    ensures !(Key(x.client, x.id) in s.replying && s.replying[Key(x.client, x.id)] == ref) ==> Covered(t, x, now)
  {
  }

  lemma FireNodeTimed(s: State, e: Endpoint, c: Frame.Cipher, calls: set<Call>, now: nat, retry: Word, k: Continuation, failed: bool)
    requires RpcRuns.Good(s) && k in s.pending && RpcLedger.ProperRetry(retry)
    requires NodeTimed(s, e, c, calls, now, retry)
    ensures NodeTimed(RpcRuns.Do(s, c, RpcRuns.Fire(k, failed, now)).0, e, c, calls, now, retry)
  {
    StageOf(s, k);
    FireOnlyRef(s, c, k, failed, now);
    StepLabelled(s, c, RpcRuns.Fire(k, failed, now));
    var t := RpcRuns.Do(s, c, RpcRuns.Fire(k, failed, now)).0;
    FireKeepsBlock(s, c, k, failed, now);
    forall x | RpcRuns.IsLive(t, k.ref, Request) && x in calls && x.client == e && x.id == t.blocks[k.ref].id
      ensures RequestTimed(t, k.ref, x, now)
    {
      assert RpcRuns.IsLive(s, k.ref, Request) && RequestTimed(s, k.ref, x, now);
      RequestFired(s, c, k, failed, now, x);
    }
    NodeTimedOnly(s, t, k.ref, e, c, calls, now, retry);
  }

  lemma FireKeepsBlock(s: State, c: Frame.Cipher, k: Continuation, failed: bool, now: nat)
    requires RpcRuns.Good(s) && k in s.pending
    ensures k.ref in s.blocks
    ensures var (t, out) := RpcRuns.Do(s, c, RpcRuns.Fire(k, failed, now));
            KeepsBlock(s.(pending := s.pending - multiset{k}), t, out, k)
  {
    RpcRuns.FiredIs(s, c, k, failed, now);
    if k.stage == Waiting || failed {
      TimerKeepsBlock(s.(pending := s.pending - multiset{k}), k, failed);
    }
  }

  /** The fired block keeps its message, which is what goes on the wire, or loses its entry. */
  ghost predicate KeepsBlock(s: State, t: State, out: Out, k: Continuation)
    requires k.ref in s.blocks
  {
    && (k.ref in t.blocks ==> SameMessage(t.blocks[k.ref], s.blocks[k.ref]))
    && (out.wire.Some? ==> out.wire.value == (s.blocks[k.ref].endpoint, s.blocks[k.ref].buffer.bytes))
    && (k.kind == Request || k.ref in t.blocks ==> t.replying == s.replying)
    && (k.kind == Reply && k.ref !in t.blocks ==> t.replying == s.replying - {KeyOf(s.blocks[k.ref])})
  }

  lemma TimerKeepsBlock(s: State, k: Continuation, failed: bool)
    requires RpcRuns.IsLive(s, k.ref, k.kind)
    ensures var (t, out) := OnTimer(s, k.ref, failed); KeepsBlock(s, t, out, k)
  {
    RpcRuns.TimerShape(s, k.ref, failed);
  }

  lemma FireNodeCovers(s: State, e: Endpoint, c: Frame.Cipher, calls: set<Call>, handled: multiset<(Endpoint, Key)>, now: nat, k: Continuation, failed: bool)
    requires RpcRuns.Good(s) && k in s.pending && RpcLedger.ProperRetry(s.retry)
    requires NodeCovers(s, e, calls, handled, now)
    requires k.kind == Reply ==> !failed
    requires k.kind == Reply && k.stage == Waiting && k.ref in s.blocks ==> now >= s.blocks[k.ref].expiry
    ensures NodeCovers(RpcRuns.Do(s, c, RpcRuns.Fire(k, failed, now)).0, e, calls, handled, now)
  {
    StageOf(s, k);
    FireOnlyRef(s, c, k, failed, now);
    FireKeepsBlock(s, c, k, failed, now);
    var t := RpcRuns.Do(s, c, RpcRuns.Fire(k, failed, now)).0;
    forall x | x in calls && (e, Key(x.client, x.id)) in handled ensures Covered(t, x, now) {
      assert Covered(s, x, now);
      CoveredOnly(s, t, k.ref, x, now);
      if !Covered(t, x, now) {
        assert k.kind == Reply && ReplyTimed(s, k.ref, x, now);
        ReplyFired(s, c, k, now, x);
      }
    }
  }

  /** A new block after its first transmission. */
  ghost predicate Launched(s: State, t: State, b: Block) {
    && RpcLedger.ProperRetry(s.retry) && OnlyRef(s, t, s.nextRef)
    && s.nextRef in t.blocks && t.blocks[s.nextRef] == b.(remain := s.retry - 1)
    && IsSending(t, s.nextRef)
  }

  lemma StartLaunches(s: State, start: State)
    requires RpcRuns.Good(s) && RpcLedger.ProperRetry(s.retry)
    requires start.retry == s.retry && start.pending == s.pending
    requires s.nextRef in start.blocks && start.blocks == s.blocks[s.nextRef := start.blocks[s.nextRef]]
    requires start.blocks[s.nextRef].remain == s.retry as int
    ensures var (t, out) := OnTimer(start, s.nextRef, false);
            var b := start.blocks[s.nextRef];
            && Launched(s, t, b) && t.replying == start.replying && t.nextId == start.nextId
            && out.wire == Some((b.endpoint, b.buffer.bytes))
  {
  }

  lemma SendLaunches(s: State, c: Frame.Cipher, to: Endpoint, buf: Buf)
    requires RpcRuns.Good(s) && RpcLedger.ProperRetry(s.retry) && buf.prefix >= 3
    ensures var (t, out) := RpcRuns.Do(s, c, RpcRuns.SendTo(to, buf));
            var b := SendStart(s, c, to, buf).blocks[s.nextRef];
            && Launched(s, t, b) && Labelled(c, b) && b.kind == Request && b.id == s.nextId
            && t.replying == s.replying && out.wire == Some((to, b.buffer.bytes))
  {
    StartLaunches(s, SendStart(s, c, to, buf));
    Frame.RoundTrip(c, Frame.Message(Frame.REQUEST, s.nextId, buf.bytes));
  }

  lemma AcceptLaunches(s: State, c: Frame.Cipher, key: Key, buf: Buf)
    requires RpcRuns.Good(s) && RpcLedger.ProperRetry(s.retry) && buf.prefix >= 3 && key !in s.replying
    ensures var (t, out) := FeedRequest(s, c, key, Some(buf));
            var b := ReplyStart(s, c, key, buf).blocks[s.nextRef];
            && Launched(s, t, b) && Labelled(c, b) && b.kind == Reply
            && t.replying == s.replying[key := s.nextRef] && out.wire == Some((key.endpoint, b.buffer.bytes))
  {
    StartLaunches(s, ReplyStart(s, c, key, buf));
    Frame.RoundTrip(c, Frame.Message(Frame.REPLY, key.id, buf.bytes));
  }

  // Sending a request

  /** A fresh call `x` of endpoint `e` concerns nothing that was there before. */
  lemma FreshCall(nodes: map<Endpoint, State>, c: Frame.Cipher, calls: set<Call>, handled: multiset<(Endpoint, Key)>, now: nat, retry: Word, x: Call)
    requires NodesTimed(nodes, c, calls, now, retry) && HandledOnce(calls, handled)
    requires NodesCover(nodes, calls, handled, now) && !HasCall(calls, x.client, x.id)
    ensures NodesTimed(nodes, c, calls + {x}, now, retry) && HandledOnce(calls + {x}, handled)
    ensures NodesCover(nodes, calls + {x}, handled, now)
  {
    forall e | e in nodes ensures NodeTimed(nodes[e], e, c, calls + {x}, now, retry) {
      var s := nodes[e];
      assert NodeTimed(s, e, c, calls, now, retry);
      forall r | RpcRuns.IsLive(s, r, Request) ensures HasCall(calls + {x}, e, s.blocks[r].id) {
        var y :| y in calls && y.client == e && y.id == s.blocks[r].id;
        assert y in calls + {x};
      }
      forall r, y | RpcRuns.IsLive(s, r, Request) && y in calls + {x} && y.client == e && y.id == s.blocks[r].id
        ensures RequestTimed(s, r, y, now)
      {
        assert HasCall(calls, e, s.blocks[r].id);
        assert y in calls;
      }
    }
    forall h | h in handled ensures handled[h] == 1 && HasCall(calls + {x}, h.1.endpoint, h.1.id) {
      var y :| y in calls && y.client == h.1.endpoint && y.id == h.1.id;
      assert y in calls + {x};
    }
    forall e | e in nodes ensures NodeCovers(nodes[e], e, calls + {x}, handled, now) {
      assert NodeCovers(nodes[e], e, calls, handled, now);
      forall y | y in calls + {x} && (e, Key(y.client, y.id)) in handled ensures Covered(nodes[e], y, now) {
        assert HasCall(calls, y.client, y.id);
        assert y in calls;
      }
    }
  }

  lemma FreshCallPackets(n: Net, c: Frame.Cipher, retry: Word, x: Call)
    requires Valid(n) && AllGenuine(n, c) && PacketsTimed(n.packets, c, n.calls, retry)
    requires !HasCall(n.calls, x.client, x.id)
    ensures PacketsTimed(n.packets, c, n.calls + {x}, retry)
  {
    forall p | p in n.packets ensures PacketTimed(p, c, n.calls + {x}, retry) {
      assert PacketTimed(p, c, n.calls, retry);
      Origin(n, c, p);
      if Frame.Open(c, p.frame).command == Frame.REQUEST {
        assert HasCall(n.calls, p.src, Frame.Open(c, p.frame).id);
      }
    }
  }

  lemma NodesUpdated(nodes: map<Endpoint, State>, e: Endpoint, s: State, c: Frame.Cipher, calls: set<Call>, now: nat, retry: Word)
    requires NodesTimed(nodes, c, calls, now, retry) && NodeTimed(s, e, c, calls, now, retry)
    ensures NodesTimed(nodes[e := s], c, calls, now, retry)
  {
  }

  lemma CoversUpdated(nodes: map<Endpoint, State>, e: Endpoint, s: State, calls: set<Call>, handled: multiset<(Endpoint, Key)>, now: nat)
    requires NodesCover(nodes, calls, handled, now) && NodeCovers(s, e, calls, handled, now)
    ensures NodesCover(nodes[e := s], calls, handled, now)
  {
  }

  /** The sender's state, with the call counted. */
  lemma LaunchedTimed(s: State, t: State, b: Block, e: Endpoint, c: Frame.Cipher, calls: set<Call>, now: nat, retry: Word, x: Call)
    requires NodeTimed(s, e, c, calls + {x}, now, retry) && Launched(s, t, b) && RpcLedger.ProperRetry(retry)
    requires Labelled(c, b) && b.kind == Request && x.client == e && x.id == b.id && x.at == now
    requires !HasCall(calls, e, x.id)
    ensures NodeTimed(t, e, c, calls + {x}, now, retry)
  {
    var ref := s.nextRef;
    assert x in calls + {x};
    assert HasCall(calls + {x}, e, t.blocks[ref].id);
    forall y | y in calls + {x} && y.client == e && y.id == t.blocks[ref].id ensures RequestTimed(t, ref, y, now) {
      assert y != x ==> HasCall(calls, e, x.id);
    }
    forall r | r in t.blocks ensures Labelled(c, t.blocks[r]) {
      assert r != ref ==> t.blocks[r] == s.blocks[r];
    }
    NodeTimedOnly(s, t, ref, e, c, calls + {x}, now, retry);
  }

  /** Steps that leave the reply table alone, and touch no reply block, keep the cover. */
  lemma CoversKept(s: State, t: State, ref: nat, e: Endpoint, calls: set<Call>, handled: multiset<(Endpoint, Key)>, now: nat)
    requires RpcRuns.Good(s) && NodeCovers(s, e, calls, handled, now) && OnlyRef(s, t, ref)
    requires t.replying == s.replying && (ref in s.blocks ==> s.blocks[ref].kind == Request)
    ensures NodeCovers(t, e, calls, handled, now)
  {
    forall x | x in calls && (e, Key(x.client, x.id)) in handled ensures Covered(t, x, now) {
      assert Covered(s, x, now);
      CoveredOnly(s, t, ref, x, now);
    }
  }

  lemma SendTimed(n: Net, c: Frame.Cipher, retry: Word, at: Endpoint, to: Endpoint, buf: Buf)
    requires Valid(n) && AllGenuine(n, c) && AllTimed(n, c, retry) && RpcLedger.ProperRetry(retry)
    requires at in n.nodes && buf.prefix >= 3 && FreshId(n, Send(at, to, buf))
    ensures var s := n.nodes[at];
            var (t, out) := RpcRuns.Do(s, c, RpcRuns.SendTo(to, buf));
            Timed(n.nodes[at := t], n.packets + NewPackets(at, out, n.now),
                  n.calls + {Call(at, s.nextId, to, buf.bytes, n.now)}, n.handled, n.now, c, retry)
  {
    var s := n.nodes[at];
    var (t, out) := RpcRuns.Do(s, c, RpcRuns.SendTo(to, buf));
    var x := Call(at, s.nextId, to, buf.bytes, n.now);
    var b := SendStart(s, c, to, buf).blocks[s.nextRef];
    assert s.retry == retry by {
      assert NodeTimed(s, at, c, n.calls, n.now, retry);
    }
    SendLaunches(s, c, to, buf);
    assert !HasCall(n.calls, at, s.nextId);
    FreshCallPackets(n, c, retry, x);
    CallerTimed(n.nodes, t, b, c, n.calls, n.handled, n.now, retry, x);
    FirstPacketTimed(Packet(at, to, b.buffer.bytes, n.now), c, n.calls, x, b, retry);
  }

  /** The nodes, after the caller of `x` has moved on to `t`. */
  lemma CallerTimed(nodes: map<Endpoint, State>, t: State, b: Block, c: Frame.Cipher, calls: set<Call>,
                    handled: multiset<(Endpoint, Key)>, now: nat, retry: Word, x: Call)
    requires NodesTimed(nodes, c, calls, now, retry) && HandledOnce(calls, handled) && NodesCover(nodes, calls, handled, now)
    requires x.client in nodes && !HasCall(calls, x.client, x.id) && x.at == now && RpcLedger.ProperRetry(retry)
    requires var s := nodes[x.client]; RpcRuns.Good(s) && Launched(s, t, b) && t.replying == s.replying
    requires Labelled(c, b) && b.kind == Request && x.id == b.id
    ensures NodesTimed(nodes[x.client := t], c, calls + {x}, now, retry) && HandledOnce(calls + {x}, handled)
    ensures NodesCover(nodes[x.client := t], calls + {x}, handled, now)
  {
    var s := nodes[x.client];
    FreshCall(nodes, c, calls, handled, now, retry, x);
    LaunchedTimed(s, t, b, x.client, c, calls, now, retry, x);
    NodesUpdated(nodes, x.client, t, c, calls + {x}, now, retry);
    CoversKept(s, t, s.nextRef, x.client, calls + {x}, handled, now);
    CoversUpdated(nodes, x.client, t, calls + {x}, handled, now);
  }

  lemma FirstPacketTimed(p: Packet, c: Frame.Cipher, calls: set<Call>, x: Call, b: Block, retry: Word)
    requires Labelled(c, b) && p.frame == b.buffer.bytes && p.src == x.client && p.sentAt == x.at && b.id == x.id
    requires !HasCall(calls, x.client, x.id) && retry >= 2
    ensures PacketTimed(p, c, calls + {x}, retry)
  {
    forall y | y in calls + {x} && y.client == p.src && y.id == Frame.Open(c, p.frame).id
      ensures p.sentAt <= y.at + (retry - 2) * SECOND
    {
      assert y != x ==> HasCall(calls, x.client, x.id);
    }
  }

  // Receiving

  /** A timely copy of a request finds its handler not yet run. */
  lemma FirstHandling(n: Net, c: Frame.Cipher, retry: Word, p: Packet)
    requires Valid(n) && AllGenuine(n, c) && AllTimed(n, c, retry) && RpcLedger.ProperRetry(retry)
    requires p in n.packets && p.dst in n.nodes && RunsHandler(n, c, p) && n.now < p.sentAt + SECOND
    ensures var key := Key(p.src, Frame.Open(c, p.frame).id);
            (p.dst, key) !in n.handled && HasCall(n.calls, key.endpoint, key.id)
  {
    var m := Frame.Open(c, p.frame);
    Origin(n, c, p);
    var x :| x in n.calls && x.client == p.src && x.server == p.dst && x.id == m.id && x.content == m.content;
    assert PacketTimed(p, c, n.calls, retry);
    assert NodeTimed(n.nodes[p.dst], p.dst, c, n.calls, n.now, retry);
    assert NodeCovers(n.nodes[p.dst], p.dst, n.calls, n.handled, n.now);
    assert n.now < x.at + (retry - 1) * SECOND;
  }

  lemma AcceptTimed(s: State, e: Endpoint, c: Frame.Cipher, calls: set<Call>, handled: multiset<(Endpoint, Key)>, now: nat, retry: Word, key: Key, buf: Buf)
    requires RpcRuns.Good(s) && RpcLedger.ProperRetry(retry) && buf.prefix >= 3 && key !in s.replying
    requires NodeTimed(s, e, c, calls, now, retry) && NodeCovers(s, e, calls, handled, now) && CallsPast(calls, now)
    ensures var (t, out) := FeedRequest(s, c, key, Some(buf));
            && NodeTimed(t, e, c, calls, now, retry)
            && NodeCovers(t, e, calls, handled + multiset{(e, key)}, now)
            && forall p :: p in NewPackets(e, out, now) ==> PacketTimed(p, c, calls, retry)
  {
    AcceptLaunches(s, c, key, buf);
    var (t, out) := FeedRequest(s, c, key, Some(buf));
    var ref := s.nextRef;
    forall r | r in t.blocks ensures Labelled(c, t.blocks[r]) {
      assert r != ref ==> t.blocks[r] == s.blocks[r];
    }
    NodeTimedOnly(s, t, ref, e, c, calls, now, retry);
    AcceptCovers(s, t, e, calls, handled, now, key);
  }

  lemma AcceptCovers(s: State, t: State, e: Endpoint, calls: set<Call>, handled: multiset<(Endpoint, Key)>, now: nat, key: Key)
    requires RpcRuns.Good(s) && key !in s.replying && t.replying == s.replying[key := s.nextRef]
    requires OnlyRef(s, t, s.nextRef) && RpcRuns.IsLive(t, s.nextRef, Reply)
    requires IsSending(t, s.nextRef) && t.blocks[s.nextRef].remain == s.retry - 1 && s.retry >= 2
    requires NodeCovers(s, e, calls, handled, now) && CallsPast(calls, now)
    ensures NodeCovers(t, e, calls, handled + multiset{(e, key)}, now)
  {
    forall x | x in calls && (e, Key(x.client, x.id)) in handled + multiset{(e, key)} ensures Covered(t, x, now) {
      if Key(x.client, x.id) == key {
        assert ReplyTimed(t, s.nextRef, x, now);
      } else {
        assert (e, Key(x.client, x.id)) in handled && Covered(s, x, now);
        assert Key(x.client, x.id) in s.replying ==> s.replying[Key(x.client, x.id)] != s.nextRef;
        CoveredOnly(s, t, s.nextRef, x, now);
      }
    }
  }

  lemma ReplyReceived(s: State, e: Endpoint, c: Frame.Cipher, calls: set<Call>, handled: multiset<(Endpoint, Key)>, now: nat, retry: Word, ref: nat, content: seq<Byte>)
    requires RpcRuns.Good(s) && RpcLedger.ProperRetry(retry) && RpcRuns.IsLive(s, ref, Request)
    requires NodeTimed(s, e, c, calls, now, retry) && NodeCovers(s, e, calls, handled, now)
    ensures var t := FeedReply(s, ref, content).0;
            NodeTimed(t, e, c, calls, now, retry) && NodeCovers(t, e, calls, handled, now)
  {
    var t := FeedReply(s, ref, content).0;
    assert OnlyRef(s, t, ref);
    forall r | r in t.blocks ensures Labelled(c, t.blocks[r]) {
      assert SameMessage(t.blocks[r], s.blocks[r]);
    }
    NodeTimedOnly(s, t, ref, e, c, calls, now, retry);
    CoversKept(s, t, ref, e, calls, handled, now);
  }
}
