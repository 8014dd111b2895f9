/** Left alone, an RPC endpoint comes to rest with empty tables. */
module RpcQuiescence {
  import opened Bytes
  import Frame
  import opened RpcSteps
  import opened RpcRuns
  import RpcLedger

  /** How many more callbacks a block can cause: two for every transmission left (the
      send's and the timer's), and those of the one under way. */
  function Weight(s: State, r: nat): nat {
    if r !in s.blocks then 0
    else
      (if s.blocks[r].remain > 0 then 2 * s.blocks[r].remain else 0) +
      (if Continuation(r, s.blocks[r].kind, Sending) in s.pending then 2 else 1)
  }

  /** The weight of the handles below `n`. */
  function Total(s: State, n: nat): nat {
    if n == 0 then 0 else Total(s, n - 1) + Weight(s, n - 1)
  }

  lemma {:induction false} TotalOf(s: State, t: State, n: nat, ref: nat)
    requires forall r: nat :: r < n && r != ref ==> Weight(t, r) == Weight(s, r)
    ensures Total(t, n) == Total(s, n) + (if ref < n then Weight(t, ref) - Weight(s, ref) else 0)
  {
    if n > 0 {
      TotalOf(s, t, n - 1, ref);
    }
  }

  ghost predicate CountingDown(s: State) {
    forall r :: r in s.blocks ==> s.blocks[r].remain >= 0
  }

  lemma OnTimerWeight(s: State, ref: nat, failed: bool, r: nat)
    requires GoodBut(s, ref) && CountingDown(s)
    ensures var t := OnTimer(s, ref, failed).0;
            && (r != ref ==> Weight(t, r) == Weight(s, r))
            && (r == ref ==> Weight(t, r) <= if s.blocks[ref].remain > 0 then 2 * s.blocks[ref].remain else 0)
  {
    assert r != ref ==> OneCallback(s, r);
  }

  lemma TimerStartedWeight(s: State, k: Continuation, now: nat, r: nat)
    requires Good(s) && CountingDown(s) && k in s.pending && k.stage == Sending && IsLive(s, k.ref, k.kind)
    ensures var t := TimerStarted(s.(pending := s.pending - multiset{k}), k.ref, now);
            Weight(t, r) == Weight(s, r) - (if r == k.ref then 1 else 0)
  {
    assert OneCallback(s, k.ref);
  }

  lemma TimerFiredWeight(s: State, k: Continuation, failed: bool, r: nat)
    requires Good(s) && CountingDown(s) && k in s.pending && (k.stage == Waiting || failed) && IsLive(s, k.ref, k.kind)
    ensures var t := OnTimer(s.(pending := s.pending - multiset{k}), k.ref, failed).0;
            if r == k.ref then Weight(t, r) < Weight(s, r) else Weight(t, r) == Weight(s, r)
  {
    FiredGoodBut(s, k);
    var u := s.(pending := s.pending - multiset{k});
    OnTimerWeight(u, k.ref, failed, r);
    assert r != k.ref ==> Weight(u, r) == Weight(s, r);
  }

  lemma FireWeight(s: State, c: Frame.Cipher, k: Continuation, failed: bool, now: nat, r: nat)
    requires Good(s) && CountingDown(s) && k in s.pending
    ensures var t := Do(s, c, Fire(k, failed, now)).0;
            if r == k.ref then Weight(t, r) < Weight(s, r) else Weight(t, r) == Weight(s, r)
  {
    PendingIsLive(s, k);
    if k.stage == Sending && !failed {
      TimerStartedWeight(s, k, now, r);
    } else {
      TimerFiredWeight(s, k, failed, r);
    }
  }

  lemma FireCountsDown(s: State, c: Frame.Cipher, k: Continuation, failed: bool, now: nat)
    requires Good(s) && CountingDown(s) && k in s.pending
    ensures var t := Do(s, c, Fire(k, failed, now)).0; CountingDown(t) && t.nextRef == s.nextRef
  {
    PendingIsLive(s, k);
  }

  lemma FireDecreases(s: State, c: Frame.Cipher, k: Continuation, failed: bool, now: nat)
    requires Good(s) && CountingDown(s) && k in s.pending
    ensures var t := Do(s, c, Fire(k, failed, now)).0; Total(t, s.nextRef) < Total(s, s.nextRef)
  {
    PendingIsLive(s, k);
    var t := Do(s, c, Fire(k, failed, now)).0;
    forall r: nat ensures if r == k.ref then Weight(t, r) < Weight(s, r) else Weight(t, r) == Weight(s, r) {
      FireWeight(s, c, k, failed, now, r);
    }
    TotalOf(s, t, s.nextRef, k.ref);
  }

  /** Without new sends and without arrivals, only so many callbacks can fire. */
  lemma {:induction false} Quiesces(s: State, c: Frame.Cipher, events: seq<Event>)
    requires Good(s) && CountingDown(s) && EnabledRun(s, c, events)
    requires FiresOnly(events)
    ensures |events| <= Total(s, s.nextRef)
    decreases |events|
  {
    if events != [] {
      FireCountsDown(s, c, events[0].k, events[0].failed, events[0].now);
      FireDecreases(s, c, events[0].k, events[0].failed, events[0].now);
      Quiesces(Do(s, c, events[0]).0, c, events[1..]);
    }
  }

  ghost predicate FiresOnly(events: seq<Event>) {
    forall e :: e in events ==> e.Fire?
  }

  lemma BlockHasCallback(s: State, r: nat)
    requires Good(s) && r in s.blocks
    ensures s.pending != multiset{}
  {
    assert OneCallback(s, r);
    assert Callbacks(s, r, s.blocks[r].kind) == 1;
  }

  /** As long as a table has an entry some callback can fire; when none can, no block is
      left and both tables are empty. */
  lemma RestsEmpty(s: State)
    requires Good(s)
    ensures s.pending == multiset{} <==> s.blocks == map[]
    ensures s.pending == multiset{} ==> s.requesting == map[] && s.replying == map[]
    ensures s.pending != multiset{} ==> exists k :: k in s.pending && Enabled(s, Fire(k, false, 0))
  {
    if s.blocks != map[] {
      var r :| r in s.blocks;
      BlockHasCallback(s, r);
    }
    if s.pending != multiset{} {
      var k :| k in s.pending;
      PendingIsLive(s, k);
      assert Enabled(s, Fire(k, false, 0));
    }
  }

  /** The callbacks that are pending can fire one after another until none is left. */
  lemma {:induction false} Drains(s: State, c: Frame.Cipher, log: multiset<Effect>) returns (events: seq<Event>)
    requires Good(s) && CountingDown(s)
    ensures EnabledRun(s, c, events) && FiresOnly(events)
    ensures Run(s, log, c, events).0.pending == multiset{}
    decreases Total(s, s.nextRef)
  {
    events := [];
    if s.pending != multiset{} {
      var k :| k in s.pending;
      FireCountsDown(s, c, k, false, 0);
      FireDecreases(s, c, k, false, 0);
      var (t, out) := Do(s, c, Fire(k, false, 0));
      var rest := Drains(t, c, log + out.log);
      events := [Fire(k, false, 0)] + rest;
      assert events[1..] == rest;
    }
  }

  lemma ReachedCountsDown(retry: Word, c: Frame.Cipher, before: seq<Event>)
    requires RpcLedger.ProperRetry(retry) && EnabledRun(Begin(retry), c, before)
    ensures CountingDown(Run(Begin(retry), multiset{}, c, before).0)
  {
    forall r | r in Run(Begin(retry), multiset{}, c, before).0.blocks
      ensures Run(Begin(retry), multiset{}, c, before).0.blocks[r].remain >= 0
    {
      RpcLedger.OneOutcome(retry, c, before, r);
    }
  }

  /** Whatever an endpoint has done, left alone it comes to rest: any further run without
      sends and arrivals is bounded, and one that cannot go on, of which there is always
      one, ends with both tables empty. */
  lemma ComesToRest(retry: Word, c: Frame.Cipher, before: seq<Event>, events: seq<Event>)
    requires RpcLedger.ProperRetry(retry) && EnabledRun(Begin(retry), c, before) && FiresOnly(events)
    ensures var s := Run(Begin(retry), multiset{}, c, before).0;
            EnabledRun(s, c, events) ==> |events| <= Total(s, s.nextRef) && RestsAfter(s, c, events)
  {
    var s := Run(Begin(retry), multiset{}, c, before).0;
    if EnabledRun(s, c, events) {
      ReachedCountsDown(retry, c, before);
      Quiesces(s, c, events);
      FiresCountDown(s, multiset{}, c, events);
      var t := Run(s, multiset{}, c, events).0;
      RestsEmpty(t);
      var more := Drains(t, c, multiset{});
    }
  }

  /** After `events` the run can go on until no callback is pending; if none is, both tables
      are empty. */
  ghost predicate RestsAfter(s: State, c: Frame.Cipher, events: seq<Event>)
    requires Good(s) && EnabledRun(s, c, events)
  {
    var t := Run(s, multiset{}, c, events).0;
    && (t.pending == multiset{} ==> t.blocks == map[] && t.requesting == map[] && t.replying == map[])
    && exists more: seq<Event> :: EnabledRun(t, c, more) && FiresOnly(more)
                                  && Run(t, multiset{}, c, more).0.pending == multiset{}
  }

  lemma {:induction false} FiresCountDown(s: State, log: multiset<Effect>, c: Frame.Cipher, events: seq<Event>)
    requires Good(s) && CountingDown(s) && EnabledRun(s, c, events) && FiresOnly(events)
    ensures CountingDown(Run(s, log, c, events).0)
    decreases |events|
  {
    if events != [] {
      FireCountsDown(s, c, events[0].k, events[0].failed, events[0].now);
      var (t, out) := Do(s, c, events[0]);
      FiresCountDown(t, log + out.log, c, events[1..]);
    }
  }
}
