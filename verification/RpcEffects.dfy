/** What each step of an RPC endpoint puts out, exactly: packets, handler runs, replies
    handed over and outcomes; and what whole runs put on the wire. */
module RpcEffects {
  import opened Bytes
  import opened Options
  import Session
  import Frame
  import Network
  import opened RpcSteps
  import opened RpcRuns
  import RpcLedger

  type Datagram = (Session.Endpoint, seq<Byte>)

  function MessageOf(b: Block): Datagram {
    (b.endpoint, b.buffer.bytes)
  }

  /** A countdown from here sends once more. */
  predicate GoesOn(remain: Int8) {
    remain >= 2 || remain == -0x80
  }

  // One step

  /** What a timer and the first transmission of a new block have in common: at most the
      block's message goes out, and then that is counted; no handler runs, nothing is
      answered, and no failure is reported without one. */
  ghost predicate TimerOut(t: State, out: Out, ref: nat, failed: bool) {
    && (forall r: nat :: out.log[Sent(r)] == if out.wire.Some? && r == ref then 1 else 0)
    && (out.wire.Some? ==> ref in t.blocks && out.wire.value == MessageOf(t.blocks[ref]))
    && (forall key :: out.log[Handled(key)] == 0)
    && (forall r: nat :: out.log[Succeeded(r)] == 0)
    && out.answer == None
    && (!failed ==> forall r: nat :: out.log[SendFailed(r)] == 0)
  }

  lemma TimerEffects(s: State, ref: nat, failed: bool)
    requires ref in s.blocks
    ensures var (t, out) := OnTimer(s, ref, failed); TimerOut(t, out, ref, failed)
  {
    TimerShape(s, ref, failed);
  }

  lemma SendEffects(s: State, c: Frame.Cipher, to: Session.Endpoint, buf: Buf)
    requires Good(s)
    ensures var (t, out) := Do(s, c, SendTo(to, buf)); TimerOut(t, out, s.nextRef, false)
  {
    if buf.prefix >= 3 {
      TimerEffects(SendStart(s, c, to, buf), s.nextRef, false);
    }
  }

  lemma FireEffects(s: State, c: Frame.Cipher, k: Continuation, failed: bool, now: nat)
    requires Good(s) && k in s.pending
    ensures var (t, out) := Do(s, c, Fire(k, failed, now)); TimerOut(t, out, k.ref, failed)
  {
    FiredIs(s, c, k, failed, now);
    if k.stage == Waiting || failed {
      TimerEffects(s.(pending := s.pending - multiset{k}), k.ref, failed);
    }
  }

  /** A request that is handled: the same, and one run of the handler. */
  lemma HandlingEffects(s: State, c: Frame.Cipher, key: Key, handler: Option<Buf>)
    requires Good(s) && key !in s.replying
    ensures var (t, out) := FeedRequest(s, c, key, handler);
            TimerOut(t, out.(log := out.log - multiset{Handled(key)}), s.nextRef, false) && out.log[Handled(key)] == 1
  {
    if handler.Some? && handler.value.prefix >= 3 {
      TimerEffects(ReplyStart(s, c, key, handler.value), s.nextRef, false);
    }
  }

  ghost predicate ReceiveOut(s: State, t: State, out: Out, from: Session.Endpoint, m: Frame.Message) {
    if m.command == Frame.REQUEST && Key(from, m.id) !in s.replying then
      && TimerOut(t, out.(log := out.log - multiset{Handled(Key(from, m.id))}), s.nextRef, false)
      && out.log[Handled(Key(from, m.id))] == 1
    else if m.command == Frame.REPLY && m.id in s.requesting then
      && out.log == multiset{Succeeded(s.requesting[m.id])} && out.wire == None
      && out.answer == Some((s.requesting[m.id], m.content))
    else
      t == s && out.log == multiset{} && out.wire == None && out.answer == None
  }

  lemma ReceiveEffects(s: State, c: Frame.Cipher, from: Session.Endpoint, frame: seq<Byte>, handler: Option<Buf>)
    requires Good(s) && |frame| >= 3
    ensures var (t, out) := Do(s, c, Receive(from, frame, handler)); ReceiveOut(s, t, out, from, Frame.Open(c, frame))
  {
    var m := Frame.Open(c, frame);
    if m.command == Frame.REQUEST && Key(from, m.id) !in s.replying {
      HandlingEffects(s, c, Key(from, m.id), handler);
    }
  }

  /** A callback retransmits exactly when it is a timer's, without error, and the countdown
      goes on; what goes out is the block's own message. */
  lemma FireSends(s: State, c: Frame.Cipher, k: Continuation, failed: bool, now: nat)
    requires Good(s) && k in s.pending
    ensures IsLive(s, k.ref, k.kind)
    ensures Do(s, c, Fire(k, failed, now)).1.wire ==
              if k.stage == Waiting && !failed && GoesOn(s.blocks[k.ref].remain) then Some(MessageOf(s.blocks[k.ref])) else None
  {
    FiredIs(s, c, k, failed, now);
  }

  /** A completed send starts the timer, which is due one second later. */
  lemma SentStartsTimer(s: State, c: Frame.Cipher, k: Continuation, now: nat)
    requires Good(s) && k in s.pending && k.stage == Sending
    ensures var t := Do(s, c, Fire(k, false, now)).0;
            && t.pending == s.pending - multiset{k} + multiset{Continuation(k.ref, k.kind, Waiting)}
            && k.ref in s.blocks && k.ref in t.blocks && t.blocks[k.ref].expiry == now + 1_000_000_000
            && t.blocks[k.ref].remain == s.blocks[k.ref].remain
  {
    FiredIs(s, c, k, false, now);
  }

  /** A request goes out under the next id, and is in the table exactly if it did. */
  lemma SendGoesOut(s: State, c: Frame.Cipher, to: Session.Endpoint, buf: Buf)
    requires Good(s)
    ensures var (t, out) := Do(s, c, SendTo(to, buf));
            if buf.prefix < 3 then t == s && out.wire == None
            else
              && t.nextId == NextId(s.nextId)
              && (if GoesOn(ToInt8(s.retry)) then
                    && out.wire == Some((to, Frame.Seal(c, Frame.Message(Frame.REQUEST, s.nextId, buf.bytes))))
                    && t.requesting == s.requesting[s.nextId := s.nextRef] && IsLive(t, s.nextRef, Request)
                  else
                    out.wire == None && s.nextId !in t.requesting && s.nextRef !in t.blocks)
  {
  }

  /** A request whose key has no reply entry is handled; if the handler accepts, its reply
      goes out and gets an entry. */
  lemma RequestIsHandled(s: State, c: Frame.Cipher, from: Session.Endpoint, id: Word, content: seq<Byte>, handler: Option<Buf>)
    requires Good(s) && Key(from, id) !in s.replying
    ensures var (t, out) := Do(s, c, Receive(from, Frame.Seal(c, Frame.Message(Frame.REQUEST, id, content)), handler));
            && out.log[Handled(Key(from, id))] == 1
            && (if handler.Some? && handler.value.prefix >= 3 && GoesOn(ToInt8(s.retry)) then
                  && out.wire == Some((from, Frame.Seal(c, Frame.Message(Frame.REPLY, id, handler.value.bytes))))
                  && t.replying == s.replying[Key(from, id) := s.nextRef] && IsLive(t, s.nextRef, Reply)
                else
                  out.wire == None && Key(from, id) !in t.replying && s.nextRef !in t.blocks)
  {
    Frame.RoundTrip(c, Frame.Message(Frame.REQUEST, id, content));
  }

  /** A request whose key has one changes nothing and is not handled again. */
  lemma DuplicateIsDropped(s: State, c: Frame.Cipher, from: Session.Endpoint, id: Word, content: seq<Byte>, handler: Option<Buf>)
    requires Good(s) && Key(from, id) in s.replying
    ensures Do(s, c, Receive(from, Frame.Seal(c, Frame.Message(Frame.REQUEST, id, content)), handler)) ==
              (s, Out(multiset{}, None, None, None))
  {
    Frame.RoundTrip(c, Frame.Message(Frame.REQUEST, id, content));
  }

  /** The handler runs exactly for requests whose key has no reply entry. */
  lemma HandledExactly(s: State, c: Frame.Cipher, e: Event, key: Key)
    requires Good(s) && Enabled(s, e)
    ensures Do(s, c, e).1.log[Handled(key)] ==
              if e.Receive? && Frame.Open(c, e.frame).command == Frame.REQUEST
                 && key == Key(e.from, Frame.Open(c, e.frame).id) && key !in s.replying then 1 else 0
  {
    match e
    case SendTo(to, buf) => SendEffects(s, c, to, buf);
    case Receive(from, frame, handler) => ReceiveEffects(s, c, from, frame, handler);
    case Fire(k, failed, now) => FireEffects(s, c, k, failed, now);
  }

  /** A reply to a request in the table is handed to that request's callback. */
  lemma ReplyIsAnswer(s: State, c: Frame.Cipher, from: Session.Endpoint, id: Word, content: seq<Byte>, handler: Option<Buf>)
    requires Good(s) && id in s.requesting
    ensures var (t, out) := Do(s, c, Receive(from, Frame.Seal(c, Frame.Message(Frame.REPLY, id, content)), handler));
            out.answer == Some((s.requesting[id], content)) && out.log[Succeeded(s.requesting[id])] == 1
  {
    Frame.RoundTrip(c, Frame.Message(Frame.REPLY, id, content));
  }

  /** And a success is counted exactly when a reply is handed over. */
  lemma AnswerExactly(s: State, c: Frame.Cipher, e: Event, r: nat)
    requires Good(s) && Enabled(s, e)
    ensures var out := Do(s, c, e).1;
            && out.log[Succeeded(r)] == (if out.answer.Some? && out.answer.value.0 == r then 1 else 0)
            && (out.answer.Some? <==>
                  e.Receive? && Frame.Open(c, e.frame).command == Frame.REPLY && Frame.Open(c, e.frame).id in s.requesting)
  {
    match e
    case SendTo(to, buf) => SendEffects(s, c, to, buf);
    case Receive(from, frame, handler) => ReceiveEffects(s, c, from, frame, handler);
    case Fire(k, failed, now) => FireEffects(s, c, k, failed, now);
  }

  /** How a callback ends its block: a request that ends on its last countdown timed out,
      even if a send failed then; another send failure is reported as such; what was
      answered before ends silently. */
  lemma FireOutcome(s: State, c: Frame.Cipher, k: Continuation, failed: bool, now: nat)
    requires Good(s) && k in s.pending
    ensures IsLive(s, k.ref, k.kind)
    ensures var (t, out) := Do(s, c, Fire(k, failed, now));
            var ends := failed || (k.stage == Waiting && !GoesOn(s.blocks[k.ref].remain));
            && (k.ref !in t.blocks <==> ends)
            && out.log[TimedOut(k.ref)] == (if ends && k.kind == Request && s.blocks[k.ref].remain == 1 then 1 else 0)
            && out.log[SendFailed(k.ref)] == (if failed && k.kind == Request && s.blocks[k.ref].remain != 1 then 1 else 0)
            && (forall f :: out.log[Released(k.ref, f)] == if ends && k.kind == Reply && f == failed then 1 else 0)
  {
    FiredIs(s, c, k, failed, now);
  }

  /** The header goes right before the content: the window's end and the slot stay. */
  lemma FramedKeepsEnd(c: Frame.Cipher, b: Buf, command: Byte, id: Word)
    requires b.prefix >= 3
    ensures var f := Framed(c, b, command, id);
            f.slot == b.slot && f.prefix + |f.bytes| == b.prefix + |b.bytes| && |f.bytes| == |b.bytes| + 3
  {
  }

  // Whole runs

  /** The block that the step is about: the one whose callback fires, or the new one. */
  function Subject(s: State, e: Event): nat {
    if e.Fire? then e.k.ref else s.nextRef
  }

  /** A step counts a transmission of a block exactly when the block's message goes out. */
  lemma SentExactly(s: State, c: Frame.Cipher, e: Event, r: nat)
    requires Good(s) && Enabled(s, e)
    ensures var (t, out) := Do(s, c, e);
            && out.log[Sent(r)] == (if out.wire.Some? && r == Subject(s, e) then 1 else 0)
            && (out.wire.Some? ==> Subject(s, e) in t.blocks && out.wire.value == MessageOf(t.blocks[Subject(s, e)]))
  {
    match e
    case SendTo(to, buf) => SendEffects(s, c, to, buf);
    case Receive(from, frame, handler) => ReceiveEffects(s, c, from, frame, handler);
    case Fire(k, failed, now) => FireEffects(s, c, k, failed, now);
  }

  lemma KeepsMessages(s: State, c: Frame.Cipher, e: Event)
    requires Good(s) && Enabled(s, e)
    ensures var t := Do(s, c, e).0;
            && s.nextRef <= t.nextRef
            && forall r :: r in t.blocks ==> r == s.nextRef || (r in s.blocks && MessageOf(t.blocks[r]) == MessageOf(s.blocks[r]))
  {
    Network.StepBlocks(s, c, e);
    if e.Fire? {
      FiredIs(s, c, e.k, e.failed, e.now);
    }
  }

  /** What the run puts on the wire for block `r`, in order. */
  ghost function Transmissions(s: State, c: Frame.Cipher, events: seq<Event>, r: nat): seq<Datagram>
    requires Good(s) && EnabledRun(s, c, events)
    decreases |events|
  {
    if events == [] then []
    else
      var (t, out) := Do(s, c, events[0]);
      (if out.wire.Some? && Subject(s, events[0]) == r then [out.wire.value] else []) + Transmissions(t, c, events[1..], r)
  }

  lemma {:induction false} CountTransmissions(s: State, log: multiset<Effect>, c: Frame.Cipher, events: seq<Event>, r: nat)
    requires Good(s) && EnabledRun(s, c, events)
    ensures Run(s, log, c, events).1[Sent(r)] == log[Sent(r)] + |Transmissions(s, c, events, r)|
    decreases |events|
  {
    if events != [] {
      var (t, out) := Do(s, c, events[0]);
      SentExactly(s, c, events[0], r);
      CountTransmissions(t, log + out.log, c, events[1..], r);
    }
  }

  ghost predicate AllAre(ds: seq<Datagram>, d: Datagram) {
    forall i :: 0 <= i < |ds| ==> ds[i] == d
  }

  /** A block's transmissions are all its message, and what is freed sends no more. */
  lemma {:induction false} LiveTransmissions(s: State, c: Frame.Cipher, events: seq<Event>, r: nat)
    requires Good(s) && EnabledRun(s, c, events) && r < s.nextRef
    ensures if r in s.blocks then AllAre(Transmissions(s, c, events, r), MessageOf(s.blocks[r]))
            else Transmissions(s, c, events, r) == []
    decreases |events|
  {
    if events != [] {
      SentExactly(s, c, events[0], r);
      KeepsMessages(s, c, events[0]);
      if events[0].Fire? {
        PendingIsLive(s, events[0].k);
      }
      LiveTransmissions(Do(s, c, events[0]).0, c, events[1..], r);
    }
  }

  /** So are those of a block yet to come. */
  lemma {:induction false} SameTransmissions(s: State, c: Frame.Cipher, events: seq<Event>, r: nat) returns (d: Datagram)
    requires Good(s) && EnabledRun(s, c, events) && r >= s.nextRef
    ensures AllAre(Transmissions(s, c, events, r), d)
    decreases |events|
  {
    d := (Session.UNUSED.endpoint, []);
    if events != [] {
      var t := Do(s, c, events[0]).0;
      var first := FirstTransmission(s, c, events[0], r);
      if r < t.nextRef {
        d := first;
        LiveTransmissions(t, c, events[1..], r);
      } else {
        d := SameTransmissions(t, c, events[1..], r);
      }
    }
  }

  lemma FirstTransmission(s: State, c: Frame.Cipher, e: Event, r: nat) returns (d: Datagram)
    requires Good(s) && Enabled(s, e) && r >= s.nextRef
    ensures var (t, out) := Do(s, c, e);
            && (out.wire.Some? && Subject(s, e) == r ==> r < t.nextRef && out.wire.value == d)
            && (r < t.nextRef && r in t.blocks ==> d == MessageOf(t.blocks[r]))
  {
    var t := Do(s, c, e).0;
    SentExactly(s, c, e, r);
    if e.Fire? {
      PendingIsLive(s, e.k);
    }
    d := if r in t.blocks then MessageOf(t.blocks[r]) else (Session.UNUSED.endpoint, []);
  }

  /** Bounded traffic: whatever happens to an endpoint, each of its packets is put on the
      wire at most retry - 1 times, every time the same; a request that timed out, and a
      reply that ended without error, exactly that often. */
  lemma BoundedTraffic(retry: Word, c: Frame.Cipher, events: seq<Event>, r: nat)
    requires RpcLedger.ProperRetry(retry) && EnabledRun(Begin(retry), c, events)
    ensures var log := Run(Begin(retry), multiset{}, c, events).1;
            var sent := Transmissions(Begin(retry), c, events, r);
            && |sent| <= retry - 1
            && (forall i, j :: 0 <= i < j < |sent| ==> sent[i] == sent[j])
            && (log[TimedOut(r)] + log[Released(r, false)] >= 1 ==> |sent| == retry - 1)
  {
    RpcLedger.BoundedSends(retry, c, events, r);
    CountTransmissions(Begin(retry), multiset{}, c, events, r);
    var d := SameTransmissions(Begin(retry), c, events, r);
  }

  ghost predicate WithoutErrors(events: seq<Event>) {
    forall e :: e in events && e.Fire? ==> !e.failed
  }

  lemma {:induction false} NoSendFailed(s: State, log: multiset<Effect>, c: Frame.Cipher, events: seq<Event>, r: nat)
    requires Good(s) && EnabledRun(s, c, events) && WithoutErrors(events)
    ensures Run(s, log, c, events).1[SendFailed(r)] == log[SendFailed(r)]
    decreases |events|
  {
    if events != [] {
      var (t, out) := Do(s, c, events[0]);
      StepSendFailed(s, c, events[0], r);
      NoSendFailed(t, log + out.log, c, events[1..], r);
    }
  }

  lemma StepSendFailed(s: State, c: Frame.Cipher, e: Event, r: nat)
    requires Good(s) && Enabled(s, e) && (e.Fire? ==> !e.failed)
    ensures Do(s, c, e).1.log[SendFailed(r)] == 0
  {
    match e
    case SendTo(to, buf) => SendEffects(s, c, to, buf);
    case Receive(from, frame, handler) => ReceiveEffects(s, c, from, frame, handler);
    case Fire(k, failed, now) => FireEffects(s, c, k, failed, now);
  }

  /** Without send errors, a request that has left the table timed out exactly if no reply
      was handed over, after all its transmissions. */
  lemma TimedOutIffUnanswered(retry: Word, c: Frame.Cipher, events: seq<Event>, r: nat)
    requires RpcLedger.ProperRetry(retry) && EnabledRun(Begin(retry), c, events) && WithoutErrors(events)
    ensures var (s, log) := Run(Begin(retry), multiset{}, c, events);
            log[Requested(r)] >= 1 && r !in s.blocks ==>
              && (log[TimedOut(r)] == 1 <==> log[Succeeded(r)] == 0)
              && (log[Succeeded(r)] == 0 ==> |Transmissions(Begin(retry), c, events, r)| == retry - 1)
  {
    RpcLedger.OneOutcome(retry, c, events, r);
    NoSendFailed(Begin(retry), multiset{}, c, events, r);
    BoundedTraffic(retry, c, events, r);
  }
}
