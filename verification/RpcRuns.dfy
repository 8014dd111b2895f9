/** What every run of one RPC endpoint keeps: the tables and the control blocks, the
    pending callbacks, and an account of what was sent and completed. */
module RpcRuns {
  import opened Bytes
  import opened Options
  import Session
  import Frame
  import opened RpcSteps

  datatype Event =
    | SendTo(to: Session.Endpoint, buf: Buf)
    | Receive(from: Session.Endpoint, frame: seq<Byte>, handler: Option<Buf>)
    | Fire(k: Continuation, failed: bool, now: nat)

  /** A frame holds at least its header; a callback fires only if it is pending. */
  predicate Enabled(s: State, e: Event) {
    match e
    case SendTo(_, _) => true
    case Receive(_, frame, _) => |frame| >= 3
    case Fire(k, _, _) => k in s.pending
  }

  // Tables, blocks and callbacks

  /** Table entries name live blocks of their own key, and every reply block has its entry. */
  ghost predicate Tables(s: State) {
    && (forall r :: r in s.blocks ==> r < s.nextRef)
    && (forall i :: i in s.requesting ==>
          s.requesting[i] in s.blocks && s.blocks[s.requesting[i]].kind == Request && s.blocks[s.requesting[i]].id == i)
    && (forall k :: k in s.replying ==>
          s.replying[k] in s.blocks && s.blocks[s.replying[k]].kind == Reply && KeyOf(s.blocks[s.replying[k]]) == k)
    && (forall r :: r in s.blocks && s.blocks[r].kind == Reply ==>
          KeyOf(s.blocks[r]) in s.replying && s.replying[KeyOf(s.blocks[r])] == r)
  }

  function Callbacks(s: State, r: nat, kind: Kind): nat {
    s.pending[Continuation(r, kind, Sending)] + s.pending[Continuation(r, kind, Waiting)]
  }

  ghost predicate NoCallback(s: State, r: nat) {
    Callbacks(s, r, Request) == 0 && Callbacks(s, r, Reply) == 0
  }

  predicate IsLive(s: State, r: nat, kind: Kind) {
    r in s.blocks && s.blocks[r].kind == kind
  }

  /** A live block has exactly one pending callback, of its own kind; a freed one has none. */
  ghost predicate OneCallback(s: State, r: nat) {
    && Callbacks(s, r, Request) == (if IsLive(s, r, Request) then 1 else 0)
    && Callbacks(s, r, Reply) == (if IsLive(s, r, Reply) then 1 else 0)
  }

  ghost predicate Good(s: State) {
    Tables(s) && forall r: nat :: OneCallback(s, r)
  }

  /** As `Good`, between the firing of `ref`'s callback and the end of the step. */
  ghost predicate GoodBut(s: State, ref: nat) {
    && Tables(s) && ref in s.blocks && NoCallback(s, ref)
    && forall r: nat :: r != ref ==> OneCallback(s, r)
  }

  /** No callback is left to fire on a freed block. */
  lemma PendingIsLive(s: State, k: Continuation)
    requires Good(s) && k in s.pending
    ensures k.ref in s.blocks && s.blocks[k.ref].kind == k.kind
  {
    assert OneCallback(s, k.ref);
    OfTwoStages(k);
    assert Callbacks(s, k.ref, k.kind) > 0 && (k.kind == Request || k.kind == Reply);
  }

  lemma OfTwoStages(k: Continuation)
    ensures k == Continuation(k.ref, k.kind, Sending) || k == Continuation(k.ref, k.kind, Waiting)
  {
    match k.stage
    case Sending =>
    case Waiting =>
  }

  lemma SendAgainGood(s: State, ref: nat)
    requires GoodBut(s, ref)
    ensures Good(SendAgain(s, ref).0)
  {
    var t := SendAgain(s, ref).0;
    forall r: nat ensures OneCallback(t, r) {
      assert r != ref ==> OneCallback(s, r);
    }
    assert forall r :: r in t.blocks ==> KeyOf(t.blocks[r]) == KeyOf(s.blocks[r]);
  }

  /** The two things that a timer can do to the state. */
  lemma TimerShape(s: State, ref: nat, failed: bool)
    requires ref in s.blocks
    ensures var (t, out) := OnTimer(s, ref, failed);
            if Decrement(s.blocks[ref].remain) <= 0 || failed then
              t == Dropped(s, ref) && out.wire.None? && out.log[Freed(ref)] == 1
            else (t, out) == SendAgain(s, ref)
  {
  }

  lemma DroppedGood(s: State, ref: nat)
    requires GoodBut(s, ref)
    ensures Good(Dropped(s, ref))
  {
    var t := Dropped(s, ref);
    forall r: nat ensures OneCallback(t, r) {
      assert r != ref ==> OneCallback(s, r);
    }
  }

  lemma OnTimerGood(s: State, ref: nat, failed: bool)
    requires GoodBut(s, ref)
    ensures Good(OnTimer(s, ref, failed).0)
  {
    SendAgainGood(s, ref);
    DroppedGood(s, ref);
  }

  lemma FiredGoodBut(s: State, k: Continuation)
    requires Good(s) && k in s.pending && k.ref in s.blocks && s.blocks[k.ref].kind == k.kind
    ensures GoodBut(s.(pending := s.pending - multiset{k}), k.ref)
  {
    var t := s.(pending := s.pending - multiset{k});
    OfTwoStages(k);
    assert OneCallback(s, k.ref);
    forall r: nat | r != k.ref ensures OneCallback(t, r) {
      assert OneCallback(s, r);
    }
  }

  lemma TimerStartedGood(s: State, ref: nat, now: nat)
    requires GoodBut(s, ref)
    ensures Good(TimerStarted(s, ref, now))
  {
    var t := TimerStarted(s, ref, now);
    forall r: nat ensures OneCallback(t, r) {
      assert r != ref ==> OneCallback(s, r);
    }
    assert forall r :: r in t.blocks ==> KeyOf(t.blocks[r]) == KeyOf(s.blocks[r]);
  }

  lemma ContinueGood(s: State, k: Continuation, failed: bool, now: nat)
    requires Good(s) && k in s.pending && k.ref in s.blocks && s.blocks[k.ref].kind == k.kind
    ensures Good(Continue(s, k, failed, now).0)
  {
    var t := s.(pending := s.pending - multiset{k});
    FiredGoodBut(s, k);
    if k.stage == Sending && !failed {
      TimerStartedGood(t, k.ref, now);
      assert Continue(s, k, failed, now).0 == TimerStarted(t, k.ref, now);
    } else {
      OnTimerGood(t, k.ref, failed);
    }
  }

  lemma AllocatedGoodBut(s: State, b: Block, t: State)
    requires Good(s)
    requires t == Allocated(s, b).(requesting := t.requesting, replying := t.replying, nextId := t.nextId)
    requires b.kind == Request ==> t.requesting == s.requesting[b.id := s.nextRef] && t.replying == s.replying
    requires b.kind == Reply ==>
               KeyOf(b) !in s.replying && t.replying == s.replying[KeyOf(b) := s.nextRef] && t.requesting == s.requesting
    ensures GoodBut(t, s.nextRef)
  {
    assert OneCallback(s, s.nextRef);
    forall r: nat | r != s.nextRef ensures OneCallback(t, r) {
      assert OneCallback(s, r);
    }
  }

  lemma SendGood(s: State, c: Frame.Cipher, to: Session.Endpoint, buf: Buf)
    requires Good(s)
    ensures Good(Send(s, c, to, buf).0)
  {
    if buf.prefix >= 3 {
      var t := SendStart(s, c, to, buf);
      AllocatedGoodBut(s, t.blocks[s.nextRef], t);
      OnTimerGood(t, s.nextRef, false);
    }
  }

  lemma FeedRequestGood(s: State, c: Frame.Cipher, key: Key, handler: Option<Buf>)
    requires Good(s) && key !in s.replying
    ensures Good(FeedRequest(s, c, key, handler).0)
  {
    if handler.Some? && handler.value.prefix >= 3 {
      var t := ReplyStart(s, c, key, handler.value);
      AllocatedGoodBut(s, t.blocks[s.nextRef], t);
      OnTimerGood(t, s.nextRef, false);
    }
  }

  lemma FeedReplyGood(s: State, ref: nat, content: seq<Byte>)
    requires Good(s) && ref in s.blocks
    ensures Good(FeedReply(s, ref, content).0)
  {
    var t := FeedReply(s, ref, content).0;
    forall r: nat ensures OneCallback(t, r) {
      assert OneCallback(s, r);
    }
  }

  lemma StepGood(s: State, c: Frame.Cipher, e: Event)
    requires Good(s) && Enabled(s, e)
    ensures match e
            case SendTo(to, buf) => Good(Send(s, c, to, buf).0)
            case Receive(from, frame, handler) => Good(Feed(s, c, from, frame, handler).0)
            case Fire(k, failed, now) =>
              && k.ref in s.blocks && s.blocks[k.ref].kind == k.kind
              && Good(Continue(s, k, failed, now).0)
  {
    match e
    case SendTo(to, buf) => SendGood(s, c, to, buf);
    case Receive(from, frame, handler) =>
      var m := Frame.Open(c, frame);
      if m.command == Frame.REQUEST && Key(from, m.id) !in s.replying {
        FeedRequestGood(s, c, Key(from, m.id), handler);
      } else if m.command == Frame.REPLY && m.id in s.requesting {
        FeedReplyGood(s, s.requesting[m.id], m.content);
      }
    case Fire(k, failed, now) =>
      PendingIsLive(s, k);
      ContinueGood(s, k, failed, now);
  }

  ghost function Do(s: State, c: Frame.Cipher, e: Event): (r: (State, Out))
    requires Good(s) && Enabled(s, e)
    ensures Good(r.0) && r.0.retry == s.retry
  {
    StepGood(s, c, e);
    match e
    case SendTo(to, buf) => Send(s, c, to, buf)
    case Receive(from, frame, handler) => Feed(s, c, from, frame, handler)
    case Fire(k, failed, now) => Continue(s, k, failed, now)
  }

  ghost predicate EnabledRun(s: State, c: Frame.Cipher, events: seq<Event>)
    requires Good(s)
    decreases |events|
  {
    events != [] ==> Enabled(s, events[0]) && EnabledRun(Do(s, c, events[0]).0, c, events[1..])
  }

  /** The state after a run, and `log` with the effects of the run added. */
  ghost function Run(s: State, log: multiset<Effect>, c: Frame.Cipher, events: seq<Event>): (r: (State, multiset<Effect>))
    requires Good(s) && EnabledRun(s, c, events)
    ensures Good(r.0) && r.0.retry == s.retry
    decreases |events|
  {
    if events == [] then (s, log)
    else var (t, out) := Do(s, c, events[0]); Run(t, log + out.log, c, events[1..])
  }

  /** Whatever happens to an endpoint, from the start on: no callback outlives its block,
      no block is left without one, and the tables name live blocks only. */
  lemma CallbackDiscipline(retry: Word, c: Frame.Cipher, events: seq<Event>)
    requires EnabledRun(Begin(retry), c, events)
    ensures var s := Run(Begin(retry), multiset{}, c, events).0;
            && (forall k :: k in s.pending ==> s.pending[k] == 1 && IsLive(s, k.ref, k.kind))
            && (forall r :: r in s.blocks ==> Callbacks(s, r, s.blocks[r].kind) == 1)
            && (forall i :: i in s.requesting ==> IsLive(s, s.requesting[i], Request))
            && (forall k :: k in s.replying ==> IsLive(s, s.replying[k], Reply))
  {
    var s := Run(Begin(retry), multiset{}, c, events).0;
    forall k | k in s.pending ensures s.pending[k] == 1 && IsLive(s, k.ref, k.kind) {
      PendingIsLive(s, k);
      OfTwoStages(k);
      assert OneCallback(s, k.ref);
    }
    forall r | r in s.blocks ensures Callbacks(s, r, s.blocks[r].kind) == 1 {
      assert OneCallback(s, r);
    }
  }

  /** An endpoint at its start. */
  ghost function Begin(retry: Word): (s: State)
    ensures Good(s)
  {
    InitialGood(retry);
    Initial(retry)
  }

  lemma InitialGood(retry: Word)
    ensures Good(Initial(retry))
  {
    forall r: nat ensures OneCallback(Initial(retry), r) {
    }
  }

  /** If every live request is in its table, that is, no live id was drawn again, then a
      step that frees a block takes exactly its entry out of its table. */
  ghost predicate AllRegistered(s: State) {
    forall r :: r in s.blocks && s.blocks[r].kind == Request ==>
      s.blocks[r].id in s.requesting && s.requesting[s.blocks[r].id] == r
  }

  lemma FreedLeavesTable(s: State, c: Frame.Cipher, k: Continuation, failed: bool, now: nat)
    requires Good(s) && AllRegistered(s) && k in s.pending
    ensures IsLive(s, k.ref, k.kind)
    ensures k.kind == Request ==>
              s.blocks[k.ref].id in s.requesting && s.requesting[s.blocks[k.ref].id] == k.ref
    ensures k.kind == Reply ==>
              KeyOf(s.blocks[k.ref]) in s.replying && s.replying[KeyOf(s.blocks[k.ref])] == k.ref
    ensures var (t, out) := Do(s, c, Fire(k, failed, now));
            FreedOrKept(s.(pending := s.pending - multiset{k}), t, out.log, k.ref)
  {
    FiredIs(s, c, k, failed, now);
    if k.stage == Waiting || failed {
      FreedOrKeptByTimer(s.(pending := s.pending - multiset{k}), k.ref, failed);
    }
  }

  /** From `s` to `t` either the block is freed with its table entry, and nothing else is;
      or tables and handles stay. */
  ghost predicate FreedOrKept(s: State, t: State, log: multiset<Effect>, ref: nat)
    requires ref in s.blocks
  {
    if ref in t.blocks then
      t.requesting == s.requesting && t.replying == s.replying && t.blocks.Keys == s.blocks.Keys && Freed(ref) !in log
    else
      t == Dropped(s, ref) && log[Freed(ref)] == 1
  }

  lemma FreedOrKeptByTimer(s: State, ref: nat, failed: bool)
    requires ref in s.blocks
    ensures var (t, out) := OnTimer(s, ref, failed); FreedOrKept(s, t, out.log, ref)
  {
    TimerShape(s, ref, failed);
  }

  /** What a callback does, given that its block is live. */
  lemma FiredIs(s: State, c: Frame.Cipher, k: Continuation, failed: bool, now: nat)
    requires Good(s) && k in s.pending
    ensures IsLive(s, k.ref, k.kind)
    ensures var u := s.(pending := s.pending - multiset{k});
            Do(s, c, Fire(k, failed, now)) ==
              if k.stage == Sending && !failed then (TimerStarted(u, k.ref, now), SILENT) else OnTimer(u, k.ref, failed)
  {
    PendingIsLive(s, k);
  }

  lemma FireKeepsRegistered(s: State, c: Frame.Cipher, k: Continuation, failed: bool, now: nat)
    requires Good(s) && AllRegistered(s) && k in s.pending
    ensures AllRegistered(Do(s, c, Fire(k, failed, now)).0)
  {
    PendingIsLive(s, k);
    TimerKeepsRegistered(s.(pending := s.pending - multiset{k}), k.ref, failed);
  }

  /** Sending under an id that is not live, and receiving anything, keep it so. */
  lemma OthersKeepRegistered(s: State, c: Frame.Cipher, e: Event)
    requires Good(s) && AllRegistered(s) && Enabled(s, e) && !e.Fire?
    requires e.SendTo? ==> s.nextId !in s.requesting
    ensures AllRegistered(Do(s, c, e).0)
  {
    match e
    case SendTo(to, buf) =>
      if buf.prefix >= 3 {
        TimerKeepsRegistered(SendStart(s, c, to, buf), s.nextRef, false);
      }
    case Receive(from, frame, handler) =>
      var m := Frame.Open(c, frame);
      if m.command == Frame.REQUEST && Key(from, m.id) !in s.replying && handler.Some? && handler.value.prefix >= 3 {
        TimerKeepsRegistered(ReplyStart(s, c, Key(from, m.id), handler.value), s.nextRef, false);
      }
  }

  lemma TimerKeepsRegistered(s: State, ref: nat, failed: bool)
    requires AllRegistered(s) && ref in s.blocks
    ensures AllRegistered(OnTimer(s, ref, failed).0)
  {
  }
}
