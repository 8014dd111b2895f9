/** The JSON layer over the RPC machine: who takes buffers from the pool and who gives them
    back. The JSON texts themselves are opaque byte strings. */
module RpcProtocol {
  import opened Bytes
  import opened Options
  import Buffer
  import Session
  import Frame
  import opened RpcSteps
  import opened RpcRuns
  import opened RpcLedger
  import RpcQuiescence
  import RpcIds

  /** The pool's slot size, and the space left before the window. */
  const SLOT_SIZE := 1600
  const HEADROOM := 10

  /** A fresh pool buffer holding a text as one record; the length is cut to 16 bits, and a
      text that does not fit leaves the buffer empty. */
  function JsonBuf(slot: nat, text: seq<Byte>): Buf {
    var t := text[..|text| % 0x1_0000];
    Buf(slot, HEADROOM, if |t| + 2 < SLOT_SIZE - HEADROOM then Buffer.Record(t) else [])
  }

  /** What arrives of a text: all of it, exactly when it fits in the buffer; of a longer one
      the part that its length, cut to 16 bits, announces if that fits, and else nothing. */
  lemma TextRoundTrip(slot: nat, text: seq<Byte>)
    ensures var b, n := JsonBuf(slot, text), |text| % 0x1_0000;
            && b.slot == slot && b.prefix == 10 && b.prefix + |b.bytes| < SLOT_SIZE
            && (n >= 1588 ==> b.bytes == [])
            && Buffer.ReadAt(b.bytes, 0) == (if n < 1588 then text[..n] else [])
    ensures text != [] ==> (Buffer.ReadAt(JsonBuf(slot, text).bytes, 0) == text <==> |text| < 1588)
  {
    var n := |text| % 0x1_0000;
    RecordReads(text[..n]);
    if n == |text| {
      assert text[..n] == text;
    }
  }

  lemma RecordReads(c: Buffer.Content)
    ensures Buffer.ReadAt(Buffer.Record(c), 0) == c
  {
    Buffer.ReadFront([c]);
    assert Buffer.Records([c]) == Buffer.Record(c) + Buffer.Records([]);
    assert Buffer.Record(c) + [] == Buffer.Record(c);
  }

  datatype Event =
    | SendJson(to: Session.Endpoint, slot: nat, text: seq<Byte>)
    | Receive(from: Session.Endpoint, frame: seq<Byte>, accept: bool, slot: nat, text: seq<Byte>)
    | Fire(k: Continuation, failed: bool, now: nat)

  /** The RPC event that a protocol event amounts to. A rejecting handler takes no buffer. */
  function AsRpc(e: Event): RpcRuns.Event {
    match e
    case SendJson(to, slot, text) => RpcRuns.SendTo(to, JsonBuf(slot, text))
    case Receive(from, frame, accept, slot, text) =>
      RpcRuns.Receive(from, frame, if accept then Some(JsonBuf(slot, text)) else None)
    case Fire(k, failed, now) => RpcRuns.Fire(k, failed, now)
  }

  /** The slot that an event takes from the pool. */
  function Takes(s: State, c: Frame.Cipher, e: Event): set<nat>
    requires RpcRuns.Enabled(s, AsRpc(e))
  {
    match e
    case SendJson(_, slot, _) => {slot}
    case Receive(from, frame, accept, slot, _) =>
      var m := Frame.Open(c, frame);
      if accept && m.command == Frame.REQUEST && Key(from, m.id) !in s.replying then {slot} else {}
    case Fire(_, _, _) => {}
  }

  /** Blocks whose buffer is still theirs: reply blocks, and requests not yet answered. */
  predicate Holding(s: State, r: nat) {
    r in s.blocks && (s.blocks[r].kind == Reply || s.blocks[r].remain > 0)
  }

  ghost function HeldSlots(s: State): set<nat> {
    set r | r in s.blocks && Holding(s, r) :: s.blocks[r].buffer.slot
  }

  /** The outstanding slots are exactly those held, each by one block. */
  ghost predicate Owns(s: State, owned: set<nat>) {
    && owned == HeldSlots(s)
    && forall q, r :: Holding(s, q) && Holding(s, r) && q != r ==>
         s.blocks[q].buffer.slot != s.blocks[r].buffer.slot
  }

  /** The callback of a step, if any, frees its slot. */
  function Gives(out: Out): set<nat> {
    if out.done.Some? then {out.done.value} else {}
  }

  /** The step frees only what is outstanding, and leaves every holder its slot. */
  ghost predicate SoundStep(s: State, owned: set<nat>, c: Frame.Cipher, e: Event)
    requires Good(s) && RpcRuns.Enabled(s, AsRpc(e))
  {
    var (t, out) := Do(s, c, AsRpc(e));
    Gives(out) <= owned + Takes(s, c, e) && Owns(t, owned + Takes(s, c, e) - Gives(out))
  }

  lemma TimerOwns(s: State, owned: set<nat>, ref: nat, failed: bool)
    requires Owns(s, owned) && ref in s.blocks && RpcQuiescence.CountingDown(s)
    ensures var (t, out) := OnTimer(s, ref, failed);
            (Gives(out) <= owned && Owns(t, owned - Gives(out))) <==>
              !(failed && s.blocks[ref].kind == Request && s.blocks[ref].remain == 0)
  {
    var (t, out) := OnTimer(s, ref, failed);
    var slot := s.blocks[ref].buffer.slot;
    if ref in t.blocks {
      SameHolders(s, t);
    } else if Holding(s, ref) {
      OneHolderLess(s, t, ref);
      assert slot in owned;
    } else {
      SameHolders(s, t);
      assert failed <==> Gives(out) == {slot};
    }
  }

  lemma SameHolders(s: State, t: State)
    requires forall r: nat :: Holding(t, r) <==> Holding(s, r)
    requires forall r: nat :: Holding(s, r) ==> r in t.blocks && t.blocks[r].buffer.slot == s.blocks[r].buffer.slot
    ensures HeldSlots(t) == HeldSlots(s)
    ensures forall owned :: Owns(s, owned) ==> Owns(t, owned)
    ensures forall owned :: Owns(t, owned) ==> Owns(s, owned)
  {
    forall x | x in HeldSlots(s) ensures x in HeldSlots(t) {
      var r :| r in s.blocks && Holding(s, r) && s.blocks[r].buffer.slot == x;
      assert Holding(t, r);
    }
    forall x | x in HeldSlots(t) ensures x in HeldSlots(s) {
      var r :| r in t.blocks && Holding(t, r) && t.blocks[r].buffer.slot == x;
      assert Holding(s, r);
    }
  }

  lemma OneHolderLess(s: State, t: State, ref: nat)
    requires Owns(s, HeldSlots(s)) && Holding(s, ref)
    requires forall r: nat :: Holding(t, r) <==> Holding(s, r) && r != ref
    requires forall r: nat :: Holding(t, r) ==> t.blocks[r].buffer.slot == s.blocks[r].buffer.slot
    ensures Owns(t, HeldSlots(s) - {s.blocks[ref].buffer.slot})
  {
    forall x | x in HeldSlots(s) && x != s.blocks[ref].buffer.slot ensures x in HeldSlots(t) {
      var r :| r in s.blocks && Holding(s, r) && s.blocks[r].buffer.slot == x;
      assert Holding(t, r);
    }
    forall x | x in HeldSlots(t) ensures x in HeldSlots(s) && x != s.blocks[ref].buffer.slot {
      var r :| r in t.blocks && Holding(t, r) && t.blocks[r].buffer.slot == x;
      assert Holding(s, r) && r != ref;
    }
  }

  lemma OneHolderMore(s: State, t: State, ref: nat, owned: set<nat>, slot: nat)
    requires Owns(s, owned) && slot !in owned && !Holding(s, ref)
    requires Holding(t, ref) && t.blocks[ref].buffer.slot == slot
    requires forall r: nat :: r != ref ==> (Holding(t, r) <==> Holding(s, r))
    requires forall r: nat :: Holding(s, r) ==> r in t.blocks && t.blocks[r].buffer.slot == s.blocks[r].buffer.slot
    ensures Owns(t, owned + {slot})
  {
    forall x | x in owned + {slot} ensures x in HeldSlots(t) {
      if x in owned {
        var r :| r in s.blocks && Holding(s, r) && s.blocks[r].buffer.slot == x;
        assert Holding(t, r);
      } else {
        assert Holding(t, ref);
      }
    }
    forall x | x in HeldSlots(t) ensures x in owned + {slot} {
      var r :| r in t.blocks && Holding(t, r) && t.blocks[r].buffer.slot == x;
      assert r != ref ==> Holding(s, r) && s.blocks[r].buffer.slot in HeldSlots(s);
    }
    forall q, r | Holding(t, q) && Holding(t, r) && q != r
      ensures t.blocks[q].buffer.slot != t.blocks[r].buffer.slot
    {
      assert q != ref ==> Holding(s, q) && s.blocks[q].buffer.slot in HeldSlots(s);
      assert r != ref ==> Holding(s, r) && s.blocks[r].buffer.slot in HeldSlots(s);
    }
  }

  lemma StartOwns(s: State, owned: set<nat>, start: State, slot: nat)
    requires Good(s) && Owns(s, owned) && slot !in owned && ProperRetry(s.retry) && RpcQuiescence.CountingDown(s)
    requires s.nextRef in start.blocks && start.blocks == s.blocks[s.nextRef := start.blocks[s.nextRef]]
    requires start.blocks[s.nextRef].remain == s.retry as int && start.blocks[s.nextRef].buffer.slot == slot
    ensures var (t, out) := OnTimer(start, s.nextRef, false);
            Gives(out) == {} && Owns(t, owned + {slot}) && RpcQuiescence.CountingDown(t)
  {
    var (t, out) := OnTimer(start, s.nextRef, false);
    assert t.blocks[s.nextRef].remain == s.retry as int - 1;
    assert Holding(t, s.nextRef) && !Holding(s, s.nextRef);
    OneHolderMore(s, t, s.nextRef, owned, slot);
  }

  lemma ReplyOwns(s: State, owned: set<nat>, ref: nat, content: seq<Byte>)
    requires Owns(s, owned) && ref in s.blocks && s.blocks[ref].kind == Request && RpcQuiescence.CountingDown(s)
    ensures var (t, out) := FeedReply(s, ref, content);
            && RpcQuiescence.CountingDown(t)
            && ((Gives(out) <= owned && Owns(t, owned - Gives(out))) <==> s.blocks[ref].remain != 0)
  {
    var (t, out) := FeedReply(s, ref, content);
    if Holding(s, ref) {
      OneHolderLess(s, t, ref);
      assert s.blocks[ref].buffer.slot in HeldSlots(s);
    } else {
      SameHolders(s, t);
    }
  }

  lemma SendSound(s: State, owned: set<nat>, c: Frame.Cipher, e: Event)
    requires e.SendJson? && Good(s) && ProperRetry(s.retry) && RpcQuiescence.CountingDown(s)
    requires Owns(s, owned) && e.slot !in owned
    ensures SoundStep(s, owned, c, e) && RpcQuiescence.CountingDown(Do(s, c, AsRpc(e)).0)
  {
    StartOwns(s, owned, SendStart(s, c, e.to, JsonBuf(e.slot, e.text)), e.slot);
    assert owned + {e.slot} - {} == owned + {e.slot};
  }

  lemma ReceiveSound(s: State, owned: set<nat>, c: Frame.Cipher, e: Event)
    requires e.Receive? && Good(s) && ProperRetry(s.retry) && RpcQuiescence.CountingDown(s) && |e.frame| >= 3
    requires Owns(s, owned) && Takes(s, c, e) !! owned
    ensures SoundStep(s, owned, c, e) <==> Clean(s, c, AsRpc(e))
    ensures RpcQuiescence.CountingDown(Do(s, c, AsRpc(e)).0)
  {
    var m := Frame.Open(c, e.frame);
    if m.command == Frame.REQUEST && Key(e.from, m.id) !in s.replying {
      RequestSound(s, owned, c, Key(e.from, m.id), e);
    } else if m.command == Frame.REPLY && m.id in s.requesting {
      assert Do(s, c, AsRpc(e)) == FeedReply(s, s.requesting[m.id], m.content);
      ReplyOwns(s, owned, s.requesting[m.id], m.content);
      assert owned + {} == owned;
    } else {
      assert Do(s, c, AsRpc(e)) == (s, SILENT) && owned + {} - {} == owned;
    }
  }

  lemma RequestSound(s: State, owned: set<nat>, c: Frame.Cipher, key: Key, e: Event)
    requires e.Receive? && Good(s) && ProperRetry(s.retry) && RpcQuiescence.CountingDown(s) && |e.frame| >= 3
    requires var m := Frame.Open(c, e.frame); m.command == Frame.REQUEST && key == Key(e.from, m.id) && key !in s.replying
    requires Owns(s, owned) && Takes(s, c, e) !! owned
    ensures SoundStep(s, owned, c, e) && RpcQuiescence.CountingDown(Do(s, c, AsRpc(e)).0)
  {
    if e.accept {
      AcceptedSound(s, owned, c, key, JsonBuf(e.slot, e.text));
    } else {
      assert owned + {} - {} == owned;
    }
  }

  lemma AcceptedSound(s: State, owned: set<nat>, c: Frame.Cipher, key: Key, buf: Buf)
    requires Good(s) && ProperRetry(s.retry) && RpcQuiescence.CountingDown(s) && key !in s.replying
    requires Owns(s, owned) && buf.slot !in owned && buf.prefix >= 3
    ensures var (t, out) := FeedRequest(s, c, key, Some(buf));
            && RpcQuiescence.CountingDown(t)
            && Gives(out) == {} && Owns(t, owned + {buf.slot}) && owned + {buf.slot} - {} == owned + {buf.slot}
  {
    StartOwns(s, owned, ReplyStart(s, c, key, buf), buf.slot);
  }

  lemma FireSound(s: State, owned: set<nat>, c: Frame.Cipher, e: Event)
    requires e.Fire? && Good(s) && RpcQuiescence.CountingDown(s) && e.k in s.pending
    requires Owns(s, owned)
    ensures SoundStep(s, owned, c, e) <==> Clean(s, c, AsRpc(e))
    ensures RpcQuiescence.CountingDown(Do(s, c, AsRpc(e)).0)
  {
    PendingIsLive(s, e.k);
    RpcQuiescence.FireCountsDown(s, c, e.k, e.failed, e.now);
    var u := s.(pending := s.pending - multiset{e.k});
    var (t, out) := Do(s, c, AsRpc(e));
    assert owned + Takes(s, c, e) == owned;
    if e.k.stage == Sending && !e.failed {
      TimerStartedOwns(s, owned, e.k, e.now);
      assert (t, out) == (TimerStarted(u, e.k.ref, e.now), SILENT) && owned - {} == owned;
    } else {
      FiredOwns(s, owned, e.k);
      TimerOwns(u, owned, e.k.ref, e.failed);
      assert (t, out) == OnTimer(u, e.k.ref, e.failed);
    }
  }

  lemma FiredOwns(s: State, owned: set<nat>, k: Continuation)
    requires Owns(s, owned)
    ensures Owns(s.(pending := s.pending - multiset{k}), owned)
  {
    SameHolders(s, s.(pending := s.pending - multiset{k}));
  }

  lemma TimerStartedOwns(s: State, owned: set<nat>, k: Continuation, now: nat)
    requires Owns(s, owned) && k.ref in s.blocks
    ensures Owns(TimerStarted(s.(pending := s.pending - multiset{k}), k.ref, now), owned)
  {
    SameHolders(s, TimerStarted(s.(pending := s.pending - multiset{k}), k.ref, now));
  }

  /** One step keeps the account of the pool exactly when it is not a second completion. */
  lemma StepSound(s: State, owned: set<nat>, c: Frame.Cipher, e: Event)
    requires Good(s) && ProperRetry(s.retry) && RpcQuiescence.CountingDown(s) && RpcRuns.Enabled(s, AsRpc(e))
    requires Owns(s, owned) && Takes(s, c, e) !! owned
    ensures SoundStep(s, owned, c, e) <==> Clean(s, c, AsRpc(e))
    ensures RpcQuiescence.CountingDown(Do(s, c, AsRpc(e)).0)
  {
    match e
    case SendJson(_, _, _) => SendSound(s, owned, c, e);
    case Receive(_, _, _, _, _) => ReceiveSound(s, owned, c, e);
    case Fire(_, _, _) => FireSound(s, owned, c, e);
  }

  // Whole runs

  ghost predicate EnabledEvents(s: State, c: Frame.Cipher, events: seq<Event>)
    requires Good(s)
    decreases |events|
  {
    events != [] ==>
      RpcRuns.Enabled(s, AsRpc(events[0])) && EnabledEvents(Do(s, c, AsRpc(events[0])).0, c, events[1..])
  }

  ghost function After(s: State, c: Frame.Cipher, events: seq<Event>): (t: State)
    requires Good(s) && EnabledEvents(s, c, events)
    ensures Good(t)
    decreases |events|
  {
    if events == [] then s else After(Do(s, c, AsRpc(events[0])).0, c, events[1..])
  }

  /** The slots outstanding after a run. */
  ghost function Outstanding(s: State, owned: set<nat>, c: Frame.Cipher, events: seq<Event>): set<nat>
    requires Good(s) && EnabledEvents(s, c, events)
    decreases |events|
  {
    if events == [] then owned
    else
      var (t, out) := Do(s, c, AsRpc(events[0]));
      Outstanding(t, owned + Takes(s, c, events[0]) - Gives(out), c, events[1..])
  }

  /** The pool hands out no slot that is outstanding. */
  ghost predicate FreshSlots(s: State, owned: set<nat>, c: Frame.Cipher, events: seq<Event>)
    requires Good(s) && EnabledEvents(s, c, events)
    decreases |events|
  {
    events != [] ==>
      && Takes(s, c, events[0]) !! owned
      && var (t, out) := Do(s, c, AsRpc(events[0]));
         FreshSlots(t, owned + Takes(s, c, events[0]) - Gives(out), c, events[1..])
  }

  ghost predicate SoundRun(s: State, owned: set<nat>, c: Frame.Cipher, events: seq<Event>)
    requires Good(s) && EnabledEvents(s, c, events)
    decreases |events|
  {
    events != [] ==>
      && SoundStep(s, owned, c, events[0])
      && var (t, out) := Do(s, c, AsRpc(events[0]));
         SoundRun(t, owned + Takes(s, c, events[0]) - Gives(out), c, events[1..])
  }

  ghost predicate CleanEvents(s: State, c: Frame.Cipher, events: seq<Event>)
    requires Good(s) && EnabledEvents(s, c, events)
    decreases |events|
  {
    events != [] ==>
      Clean(s, c, AsRpc(events[0])) && CleanEvents(Do(s, c, AsRpc(events[0])).0, c, events[1..])
  }

  lemma {:induction false} RunSound(s: State, owned: set<nat>, c: Frame.Cipher, events: seq<Event>)
    requires Good(s) && ProperRetry(s.retry) && RpcQuiescence.CountingDown(s) && Owns(s, owned)
    requires EnabledEvents(s, c, events) && FreshSlots(s, owned, c, events)
    ensures SoundRun(s, owned, c, events) <==> CleanEvents(s, c, events)
    ensures CleanEvents(s, c, events) ==> Owns(After(s, c, events), Outstanding(s, owned, c, events))
    decreases |events|
  {
    if events != [] {
      StepSound(s, owned, c, events[0]);
      if Clean(s, c, AsRpc(events[0])) {
        var (t, out) := Do(s, c, AsRpc(events[0]));
        RunSound(t, owned + Takes(s, c, events[0]) - Gives(out), c, events[1..]);
      }
    }
  }

  function RpcEvents(events: seq<Event>): seq<RpcRuns.Event> {
    if events == [] then [] else [AsRpc(events[0])] + RpcEvents(events[1..])
  }

  /** A run of the protocol is a run of the RPC machine. */
  lemma {:induction false} RunsAsRpc(s: State, log: multiset<Effect>, c: Frame.Cipher, events: seq<Event>)
    requires Good(s) && EnabledEvents(s, c, events)
    ensures EnabledRun(s, c, RpcEvents(events))
    ensures Run(s, log, c, RpcEvents(events)).0 == After(s, c, events)
    decreases |events|
  {
    if events != [] {
      var (t, out) := Do(s, c, AsRpc(events[0]));
      RunsAsRpc(t, log + out.log, c, events[1..]);
      assert RpcEvents(events)[1..] == RpcEvents(events[1..]);
    }
  }

  /** Pool ownership is conserved: over any run from the start, every free is of an
      outstanding slot and no holder loses its slot, exactly when no request is completed a
      second time; and then, once both tables are empty, no slot is outstanding, if no
      request was live for 65535 sends. */
  lemma PoolConserved(retry: Word, c: Frame.Cipher, events: seq<Event>)
    requires ProperRetry(retry) && EnabledEvents(Begin(retry), c, events)
    requires FreshSlots(Begin(retry), {}, c, events)
    ensures SoundRun(Begin(retry), {}, c, events) <==> CleanEvents(Begin(retry), c, events)
    ensures EnabledRun(Begin(retry), c, RpcEvents(events))
    ensures var t, owned := After(Begin(retry), c, events), Outstanding(Begin(retry), {}, c, events);
            CleanEvents(Begin(retry), c, events) ==>
              && owned == HeldSlots(t)
              && (RpcIds.Prompt(Begin(retry), [], c, RpcEvents(events)) && t.requesting == map[] && t.replying == map[]
                  ==> owned == {})
  {
    var s := Begin(retry);
    assert HeldSlots(s) == {};
    RunSound(s, {}, c, events);
    RunsAsRpc(s, multiset{}, c, events);
    var t := After(s, c, events);
    if RpcIds.Prompt(s, [], c, RpcEvents(events)) && t.requesting == map[] && t.replying == map[] {
      RpcIds.NoOverwrite(retry, c, RpcEvents(events));
      assert forall r :: r in t.blocks ==> !Holding(t, r);
    }
  }

  /** The header's three bytes always fit: the layer leaves more headroom than that, so the
      refusals of the RPC machine, whose callbacks it could not serve, never happen. */
  lemma NeverRefused(s: State, c: Frame.Cipher, e: Event)
    requires Good(s) && RpcRuns.Enabled(s, AsRpc(e))
    ensures Refused !in Do(s, c, AsRpc(e)).1.log
  {
    match e
    case SendJson(to, slot, text) => TimerNotRefused(SendStart(s, c, to, JsonBuf(slot, text)), s.nextRef, false);
    case Receive(from, frame, accept, slot, text) =>
      ReceiveNotRefused(s, c, from, frame, if accept then Some(JsonBuf(slot, text)) else None);
    case Fire(k, failed, now) =>
      FiredIs(s, c, k, failed, now);
      TimerNotRefused(s.(pending := s.pending - multiset{k}), k.ref, failed);
  }

  lemma ReceiveNotRefused(s: State, c: Frame.Cipher, from: Session.Endpoint, frame: seq<Byte>, handler: Option<Buf>)
    requires Good(s) && |frame| >= 3 && (handler.Some? ==> handler.value.prefix >= 3)
    ensures Refused !in Do(s, c, RpcRuns.Receive(from, frame, handler)).1.log
  {
    var m := Frame.Open(c, frame);
    if handler.Some? && m.command == Frame.REQUEST && Key(from, m.id) !in s.replying {
      TimerNotRefused(ReplyStart(s, c, Key(from, m.id), handler.value), s.nextRef, false);
    }
  }

  lemma TimerNotRefused(s: State, ref: nat, failed: bool)
    requires ref in s.blocks
    ensures Refused !in OnTimer(s, ref, failed).1.log
  {
  }
}
