/** The account of one RPC endpoint: for every control block, what its run so far has put
    on the wire and how it was completed. */
module RpcLedger {
  import opened Bytes
  import opened Options
  import Session
  import Frame
  import opened RpcSteps
  import opened RpcRuns

  /** How often the callback of request `r` was called. */
  function Completions(log: multiset<Effect>, r: nat): nat {
    log[Succeeded(r)] + log[TimedOut(r)] + log[SendFailed(r)]
  }

  function Releases(log: multiset<Effect>, r: nat): nat {
    log[Released(r, false)] + log[Released(r, true)]
  }

  ghost predicate Unused(log: multiset<Effect>, r: nat) {
    log[Requested(r)] + log[Accepted(r)] + log[Sent(r)] + log[Freed(r)] + Completions(log, r) + Releases(log, r) == 0
  }

  /** Zero on the countdown means answered; otherwise the countdown is what is left of
      the transmissions. */
  ghost predicate LiveRequest(log: multiset<Effect>, r: nat, retry: nat, remain: int, most: nat) {
    && log[Requested(r)] == 1
    && log[Accepted(r)] + log[Freed(r)] + log[TimedOut(r)] + log[SendFailed(r)] + Releases(log, r) == 0
    && 0 <= remain <= most
    && if remain > 0 then log[Succeeded(r)] == 0 && log[Sent(r)] == retry - remain
       else log[Succeeded(r)] >= 1 && 1 <= log[Sent(r)] < retry
  }

  ghost predicate LiveReply(log: multiset<Effect>, r: nat, retry: nat, remain: int, most: nat) {
    && log[Accepted(r)] == 1
    && log[Requested(r)] + log[Freed(r)] + Completions(log, r) + Releases(log, r) == 0
    && 1 <= remain <= most && log[Sent(r)] == retry - remain
  }

  /** A request ends in a timeout after all its transmissions and with no other outcome,
      or in replies, or in a send failure, possibly after replies. */
  ghost predicate GoneRequest(log: multiset<Effect>, r: nat, retry: nat) {
    && log[Requested(r)] == 1 && log[Freed(r)] == 1
    && log[Accepted(r)] + Releases(log, r) == 0
    && log[TimedOut(r)] + log[SendFailed(r)] <= 1
    && log[Sent(r)] < retry
    && (log[TimedOut(r)] == 1 ==> log[Succeeded(r)] == 0 && log[Sent(r)] == retry - 1)
    && Completions(log, r) >= 1
  }

  ghost predicate GoneReply(log: multiset<Effect>, r: nat, retry: nat) {
    && log[Accepted(r)] == 1 && log[Freed(r)] == 1
    && log[Requested(r)] + Completions(log, r) == 0
    && Releases(log, r) == 1
    && log[Sent(r)] < retry
    && (log[Released(r, false)] == 1 ==> log[Sent(r)] == retry - 1)
  }

  ghost predicate Live(s: State, log: multiset<Effect>, r: nat, most: nat)
    requires r in s.blocks
  {
    var b := s.blocks[r];
    if b.kind == Request then LiveRequest(log, r, s.retry, b.remain, most)
    else LiveReply(log, r, s.retry, b.remain, most)
  }

  ghost predicate Account(s: State, log: multiset<Effect>, r: nat) {
    if r in s.blocks then s.retry >= 1 && Live(s, log, r, s.retry - 1)
    else if r < s.nextRef then GoneRequest(log, r, s.retry) || GoneReply(log, r, s.retry)
    else Unused(log, r)
  }

  ghost predicate Accounts(s: State, log: multiset<Effect>) {
    forall r: nat :: Account(s, log, r)
  }

  /** The retry counts for which the 8-bit countdown starts as given and sends at all. */
  predicate ProperRetry(retry: Word) {
    2 <= retry <= 127
  }

  lemma OnTimerAccount(s: State, log: multiset<Effect>, ref: nat, failed: bool)
    requires ref in s.blocks && ref < s.nextRef && ProperRetry(s.retry)
    requires Live(s, log, ref, s.retry) && (s.blocks[ref].remain == s.retry as int ==> !failed)
    ensures var (t, out) := OnTimer(s, ref, failed);
            && t.nextRef == s.nextRef && t.retry == s.retry
            && Account(t, log + out.log, ref)
  {
  }

  /** Only `ref` is touched between `s` and `t`, and by effects `more`. */
  ghost predicate Touches(s: State, t: State, more: multiset<Effect>, ref: nat) {
    && t.retry == s.retry
    && (forall e :: e in more ==> e == Refused || e.Handled? || e.ref == ref)
    && (forall r: nat :: r != ref ==> (r in t.blocks <==> r in s.blocks) && (r < t.nextRef <==> r < s.nextRef))
    && (forall r: nat :: r != ref && r in s.blocks ==> t.blocks[r] == s.blocks[r])
  }

  /** Then every other account is as it was. */
  lemma OtherAccounts(s: State, t: State, log: multiset<Effect>, more: multiset<Effect>, ref: nat)
    requires Accounts(s, log) && Touches(s, t, more, ref) && Account(t, log + more, ref)
    ensures Accounts(t, log + more)
  {
    forall r: nat | r != ref ensures Account(t, log + more, r) {
      assert Account(s, log, r);
      assert Requested(r) !in more && Accepted(r) !in more && Sent(r) !in more && Freed(r) !in more;
      assert Succeeded(r) !in more && TimedOut(r) !in more && SendFailed(r) !in more;
      assert Released(r, false) !in more && Released(r, true) !in more;
    }
  }

  lemma OnTimerTouches(s: State, ref: nat, failed: bool)
    requires ref in s.blocks
    ensures var (t, out) := OnTimer(s, ref, failed); Touches(s, t, out.log, ref) && t.nextRef == s.nextRef
  {
  }

  lemma FireAccounts(s: State, log: multiset<Effect>, c: Frame.Cipher, k: Continuation, failed: bool, now: nat)
    requires Good(s) && ProperRetry(s.retry) && Accounts(s, log) && k in s.pending
    ensures var (t, out) := Do(s, c, Fire(k, failed, now)); Accounts(t, log + out.log)
  {
    FiredIs(s, c, k, failed, now);
    assert Account(s, log, k.ref);
    var u := s.(pending := s.pending - multiset{k});
    if k.stage == Waiting || failed {
      var (t, out) := OnTimer(u, k.ref, failed);
      OnTimerTouches(u, k.ref, failed);
      OnTimerAccount(u, log, k.ref, failed);
      OtherAccounts(s, t, log, out.log, k.ref);
    } else {
      TimerStartedAccounts(s, log, k.ref, now, u);
    }
  }

  lemma TimerStartedAccounts(s: State, log: multiset<Effect>, ref: nat, now: nat, u: State)
    requires Accounts(s, log) && ref in s.blocks && u == s.(pending := u.pending)
    ensures Accounts(TimerStarted(u, ref, now), log + multiset{})
  {
    assert log + multiset{} == log;
    forall r: nat ensures Account(TimerStarted(u, ref, now), log, r) {
      assert Account(s, log, r);
    }
  }

  lemma StartAccounts(s: State, log: multiset<Effect>, start: State, tag: multiset<Effect>)
    requires Good(s) && ProperRetry(s.retry) && Accounts(s, log)
    requires start.nextRef == s.nextRef + 1 && start.retry == s.retry
    requires s.nextRef in start.blocks && start.blocks == s.blocks[s.nextRef := start.blocks[s.nextRef]]
    requires start.blocks[s.nextRef].remain == s.retry as int
    requires Live(start, log + tag, s.nextRef, s.retry)
    requires forall e :: e in tag ==> e == Refused || e.Handled? || e.ref == s.nextRef
    ensures var (t, out) := OnTimer(start, s.nextRef, false); Accounts(t, log + (out.log + tag))
  {
    var (t, out) := OnTimer(start, s.nextRef, false);
    assert log + tag + out.log == log + (out.log + tag);
    OnTimerTouches(start, s.nextRef, false);
    OnTimerAccount(start, log + tag, s.nextRef, false);
    assert Touches(s, t, out.log + tag, s.nextRef);
    OtherAccounts(s, t, log, out.log + tag, s.nextRef);
  }

  lemma RefusalAccounts(s: State, log: multiset<Effect>, more: multiset<Effect>)
    requires Accounts(s, log) && forall e :: e in more ==> e == Refused || e.Handled?
    ensures Accounts(s, log + more)
  {
    forall r: nat ensures Account(s, log + more, r) {
      assert Account(s, log, r);
      assert Requested(r) !in more && Accepted(r) !in more && Sent(r) !in more && Freed(r) !in more;
      assert Succeeded(r) !in more && TimedOut(r) !in more && SendFailed(r) !in more;
      assert Released(r, false) !in more && Released(r, true) !in more;
    }
  }

  lemma SendAccounts(s: State, log: multiset<Effect>, c: Frame.Cipher, to: Session.Endpoint, buf: Buf)
    requires Good(s) && ProperRetry(s.retry) && Accounts(s, log)
    ensures var (t, out) := Do(s, c, SendTo(to, buf)); Accounts(t, log + out.log)
  {
    if buf.prefix < 3 {
      RefusalAccounts(s, log, multiset{Refused});
    } else {
      assert Account(s, log, s.nextRef);
      StartAccounts(s, log, SendStart(s, c, to, buf), multiset{Requested(s.nextRef)});
    }
  }

  lemma RequestAccounts(s: State, log: multiset<Effect>, c: Frame.Cipher, key: Key, handler: Option<Buf>)
    requires Good(s) && ProperRetry(s.retry) && Accounts(s, log) && key !in s.replying
    ensures var (t, out) := FeedRequest(s, c, key, handler); Accounts(t, log + out.log)
  {
    if handler.Some? && handler.value.prefix >= 3 {
      assert Account(s, log, s.nextRef);
      StartAccounts(s, log, ReplyStart(s, c, key, handler.value), multiset{Handled(key), Accepted(s.nextRef)});
    } else {
      RefusalAccounts(s, log, FeedRequest(s, c, key, handler).1.log);
    }
  }

  lemma ReplyAccounts(s: State, log: multiset<Effect>, ref: nat, content: seq<Byte>)
    requires Accounts(s, log) && ref in s.blocks && s.blocks[ref].kind == Request
    ensures var (t, out) := FeedReply(s, ref, content); Accounts(t, log + out.log)
  {
    var (t, out) := FeedReply(s, ref, content);
    assert Account(s, log, ref);
    OtherAccounts(s, t, log, out.log, ref);
  }

  lemma ReceiveAccounts(s: State, log: multiset<Effect>, c: Frame.Cipher, from: Session.Endpoint, frame: seq<Byte>, handler: Option<Buf>)
    requires Good(s) && ProperRetry(s.retry) && Accounts(s, log) && |frame| >= 3
    ensures var (t, out) := Do(s, c, Receive(from, frame, handler)); Accounts(t, log + out.log)
  {
    var m := Frame.Open(c, frame);
    if m.command == Frame.REQUEST && Key(from, m.id) !in s.replying {
      RequestAccounts(s, log, c, Key(from, m.id), handler);
    } else if m.command == Frame.REPLY && m.id in s.requesting {
      ReplyAccounts(s, log, s.requesting[m.id], m.content);
    } else {
      assert log + multiset{} == log;
    }
  }

  lemma StepAccounts(s: State, log: multiset<Effect>, c: Frame.Cipher, e: Event)
    requires Good(s) && ProperRetry(s.retry) && Accounts(s, log) && Enabled(s, e)
    ensures var (t, out) := Do(s, c, e); Accounts(t, log + out.log)
  {
    match e
    case SendTo(to, buf) => SendAccounts(s, log, c, to, buf);
    case Receive(from, frame, handler) => ReceiveAccounts(s, log, c, from, frame, handler);
    case Fire(k, failed, now) => FireAccounts(s, log, c, k, failed, now);
  }

  lemma {:induction false} RunAccounts(s: State, log: multiset<Effect>, c: Frame.Cipher, events: seq<Event>)
    requires Good(s) && ProperRetry(s.retry) && Accounts(s, log) && EnabledRun(s, c, events)
    ensures var (t, all) := Run(s, log, c, events); Accounts(t, all)
    decreases |events|
  {
    if events != [] {
      StepAccounts(s, log, c, events[0]);
      var (t, out) := Do(s, c, events[0]);
      RunAccounts(t, log + out.log, c, events[1..]);
    }
  }

  lemma InitialAccounts(retry: Word)
    ensures Accounts(Begin(retry), multiset{})
  {
    forall r: nat ensures Account(Begin(retry), multiset{}, r) {
    }
  }

  /** What the first transmission does for each retry count, given how it is cut to 8 bits:
      1 times out at once; 0 and the negative counts drop the request without ever calling
      back, save -128, which wraps to 127. */
  lemma RetryCounts(s: State, c: Frame.Cipher, to: Session.Endpoint, buf: Buf)
    requires Good(s) && buf.prefix >= 3
    ensures var (t, out) := Send(s, c, to, buf);
            var r := ToInt8(s.retry);
            && (Sent(s.nextRef) in out.log <==> r >= 2 || r == -128)
            && (Completions(out.log, s.nextRef) == 1 <==> r == 1)
            && (s.nextRef in t.blocks <==> Sent(s.nextRef) in out.log)
            && (s.retry - r) % 0x100 == 0 && (ProperRetry(s.retry) ==> r == s.retry as int)
  {
  }

  /** One outcome per request, over every run: a timeout excludes every other outcome and
      comes after all transmissions; a request that left its table was completed; and the
      countdown of a live one is zero exactly when it was answered. */
  lemma OneOutcome(retry: Word, c: Frame.Cipher, events: seq<Event>, r: nat)
    requires ProperRetry(retry) && EnabledRun(Begin(retry), c, events)
    ensures var (s, log) := Run(Begin(retry), multiset{}, c, events);
            && (log[TimedOut(r)] >= 1 ==> Completions(log, r) == 1 && log[Sent(r)] == retry - 1)
            && (log[Requested(r)] >= 1 && r !in s.blocks ==> Completions(log, r) >= 1 && log[Freed(r)] == 1)
            && (IsLive(s, r, Request) ==>
                  && 0 <= s.blocks[r].remain < retry as int
                  && (s.blocks[r].remain == 0 <==> log[Succeeded(r)] >= 1)
                  && log[TimedOut(r)] == log[SendFailed(r)] == 0)
            && (IsLive(s, r, Reply) ==> 1 <= s.blocks[r].remain < retry as int)
  {
    InitialAccounts(retry);
    RunAccounts(Begin(retry), multiset{}, c, events);
    var (s, log) := Run(Begin(retry), multiset{}, c, events);
    assert Account(s, log, r);
  }

  /** No block counts more than retry - 1 transmissions; a request that timed out, and a
      reply block that ended without error, counts exactly that many. */
  lemma BoundedSends(retry: Word, c: Frame.Cipher, events: seq<Event>, r: nat)
    requires ProperRetry(retry) && EnabledRun(Begin(retry), c, events)
    ensures var (s, log) := Run(Begin(retry), multiset{}, c, events);
            && log[Sent(r)] <= retry - 1
            && (log[TimedOut(r)] + log[Released(r, false)] >= 1 ==> log[Sent(r)] == retry - 1)
            && log[Freed(r)] <= 1
  {
    InitialAccounts(retry);
    RunAccounts(Begin(retry), multiset{}, c, events);
    var (s, log) := Run(Begin(retry), multiset{}, c, events);
    assert Account(s, log, r);
  }

  // Exactly one completion

  /** Neither a second reply to a request still in its table, nor a send failure after a
      reply. */
  predicate Clean(s: State, c: Frame.Cipher, e: Event) {
    match e
    case SendTo(_, _) => true
    case Receive(_, frame, _) =>
      |frame| >= 3 ==>
        var m := Frame.Open(c, frame);
        m.command == Frame.REPLY && m.id in s.requesting && s.requesting[m.id] in s.blocks ==>
          s.blocks[s.requesting[m.id]].remain != 0
    case Fire(k, failed, _) =>
      failed && k.kind == Request && k.ref in s.blocks ==> s.blocks[k.ref].remain != 0
  }

  ghost predicate CleanRun(s: State, c: Frame.Cipher, events: seq<Event>)
    requires Good(s) && EnabledRun(s, c, events)
    decreases |events|
  {
    events != [] ==> Clean(s, c, events[0]) && CleanRun(Do(s, c, events[0]).0, c, events[1..])
  }

  ghost predicate AtMostOnce(log: multiset<Effect>) {
    forall r: nat :: Completions(log, r) <= 1
  }

  /** `more` completes at most the request `ref`, for the first time if `clean`, else again. */
  ghost predicate Completes(log: multiset<Effect>, more: multiset<Effect>, ref: nat, clean: bool) {
    && (forall r: nat :: r != ref ==> Completions(more, r) == 0)
    && Completions(more, ref) <= 1
    && (clean ==> Completions(more, ref) == 0 || Completions(log, ref) == 0)
    && (!clean ==> Completions(more, ref) == 1 && Completions(log, ref) >= 1)
  }

  lemma StepCompletes(s: State, log: multiset<Effect>, c: Frame.Cipher, e: Event) returns (ref: nat)
    requires Good(s) && ProperRetry(s.retry) && Accounts(s, log) && Enabled(s, e)
    ensures Completes(log, Do(s, c, e).1.log, ref, Clean(s, c, e))
  {
    match e
    case SendTo(to, buf) => ref := SendCompletes(s, log, c, to, buf);
    case Receive(from, frame, handler) => ref := ReceiveCompletes(s, log, c, from, frame, handler);
    case Fire(k, failed, now) =>
      PendingIsLive(s, k);
      ref := k.ref;
      FireCompletes(s, log, c, k, failed, now);
  }

  lemma StartCompletesNothing(start: State, ref: nat, tag: multiset<Effect>)
    requires ref in start.blocks && start.blocks[ref].remain >= 2
    requires forall e :: e in tag ==> e.Requested? || e.Accepted? || e.Handled?
    ensures forall r: nat :: Completions(OnTimer(start, ref, false).1.log + tag, r) == 0
  {
    var more := OnTimer(start, ref, false).1.log + tag;
    assert OnTimer(start, ref, false).1.log == multiset{Sent(ref)};
    forall r: nat ensures Completions(more, r) == 0 {
      assert Succeeded(r) !in more && TimedOut(r) !in more && SendFailed(r) !in more;
    }
  }

  lemma SendCompletes(s: State, log: multiset<Effect>, c: Frame.Cipher, to: Session.Endpoint, buf: Buf) returns (ref: nat)
    requires Good(s) && ProperRetry(s.retry) && Accounts(s, log)
    ensures Completes(log, Do(s, c, SendTo(to, buf)).1.log, ref, true)
  {
    ref := s.nextRef;
    SendCompletesNothing(s, c, to, buf);
  }

  lemma SendCompletesNothing(s: State, c: Frame.Cipher, to: Session.Endpoint, buf: Buf)
    requires Good(s) && ProperRetry(s.retry)
    ensures forall r: nat :: Completions(Send(s, c, to, buf).1.log, r) == 0
  {
    if buf.prefix >= 3 {
      StartCompletesNothing(SendStart(s, c, to, buf), s.nextRef, multiset{Requested(s.nextRef)});
    }
  }

  lemma RequestCompletes(s: State, c: Frame.Cipher, key: Key, handler: Option<Buf>)
    requires Good(s) && ProperRetry(s.retry)
    ensures forall r: nat :: Completions(FeedRequest(s, c, key, handler).1.log, r) == 0
  {
    if handler.Some? && handler.value.prefix >= 3 {
      StartCompletesNothing(ReplyStart(s, c, key, handler.value), s.nextRef, multiset{Handled(key), Accepted(s.nextRef)});
    }
  }

  lemma ReceiveCompletes(s: State, log: multiset<Effect>, c: Frame.Cipher, from: Session.Endpoint, frame: seq<Byte>, handler: Option<Buf>)
    returns (ref: nat)
    requires Good(s) && ProperRetry(s.retry) && Accounts(s, log) && |frame| >= 3
    ensures var e := Receive(from, frame, handler); Completes(log, Do(s, c, e).1.log, ref, Clean(s, c, e))
  {
    var m := Frame.Open(c, frame);
    ref := s.nextRef;
    if m.command == Frame.REQUEST && Key(from, m.id) !in s.replying {
      RequestCompletes(s, c, Key(from, m.id), handler);
    } else if m.command == Frame.REPLY && m.id in s.requesting {
      ref := s.requesting[m.id];
      assert Account(s, log, ref);
      assert Do(s, c, Receive(from, frame, handler)).1.log == multiset{Succeeded(ref)};
    }
  }

  lemma FireCompletes(s: State, log: multiset<Effect>, c: Frame.Cipher, k: Continuation, failed: bool, now: nat)
    requires Good(s) && ProperRetry(s.retry) && Accounts(s, log) && k in s.pending
    ensures var e := Fire(k, failed, now); Completes(log, Do(s, c, e).1.log, k.ref, Clean(s, c, e))
  {
    FiredIs(s, c, k, failed, now);
    assert Account(s, log, k.ref);
    if k.stage == Waiting || failed {
      TimerCompletes(s.(pending := s.pending - multiset{k}), log, k.ref, failed);
    }
  }

  lemma TimerCompletes(s: State, log: multiset<Effect>, ref: nat, failed: bool)
    requires ref in s.blocks && Account(s, log, ref)
    ensures Completes(log, OnTimer(s, ref, failed).1.log, ref,
                      failed && s.blocks[ref].kind == Request ==> s.blocks[ref].remain != 0)
  {
  }

  lemma StepAtMostOnce(s: State, log: multiset<Effect>, c: Frame.Cipher, e: Event)
    requires Good(s) && ProperRetry(s.retry) && Accounts(s, log) && Enabled(s, e)
    ensures AtMostOnce(log) ==> (AtMostOnce(log + Do(s, c, e).1.log) <==> Clean(s, c, e))
  {
    var ref := StepCompletes(s, log, c, e);
    var out := Do(s, c, e).1;
    assert forall r: nat :: Completions(log + out.log, r) == Completions(log, r) + Completions(out.log, r);
    if !Clean(s, c, e) {
      assert Completions(log + out.log, ref) >= 2;
    }
  }

  lemma {:induction false} LogGrows(s: State, log: multiset<Effect>, c: Frame.Cipher, events: seq<Event>)
    requires Good(s) && EnabledRun(s, c, events)
    ensures log <= Run(s, log, c, events).1
    decreases |events|
  {
    if events != [] {
      var (t, out) := Do(s, c, events[0]);
      LogGrows(t, log + out.log, c, events[1..]);
    }
  }

  lemma {:induction false} RunAtMostOnce(s: State, log: multiset<Effect>, c: Frame.Cipher, events: seq<Event>)
    requires Good(s) && ProperRetry(s.retry) && Accounts(s, log) && EnabledRun(s, c, events) && AtMostOnce(log)
    ensures AtMostOnce(Run(s, log, c, events).1) <==> CleanRun(s, c, events)
    decreases |events|
  {
    if events != [] {
      var (t, out) := Do(s, c, events[0]);
      StepAtMostOnce(s, log, c, events[0]);
      StepAccounts(s, log, c, events[0]);
      if Clean(s, c, events[0]) {
        RunAtMostOnce(t, log + out.log, c, events[1..]);
      } else {
        var r: nat :| Completions(log + out.log, r) > 1;
        LogGrows(t, log + out.log, c, events[1..]);
        assert Completions(Run(s, log, c, events).1, r) > 1;
      }
    }
  }

  /** No request is completed twice exactly when no request in its table is answered twice
      and none fails to be sent after an answer; and then every request that has left its
      table was completed exactly once. */
  lemma ExactlyOnceIffClean(retry: Word, c: Frame.Cipher, events: seq<Event>)
    requires ProperRetry(retry) && EnabledRun(Begin(retry), c, events)
    ensures var (s, log) := Run(Begin(retry), multiset{}, c, events);
            && (AtMostOnce(log) <==> CleanRun(Begin(retry), c, events))
            && (CleanRun(Begin(retry), c, events) ==>
                  forall r: nat :: log[Requested(r)] >= 1 && r !in s.blocks ==> Completions(log, r) == 1)
  {
    InitialAccounts(retry);
    RunAtMostOnce(Begin(retry), multiset{}, c, events);
    var (s, log) := Run(Begin(retry), multiset{}, c, events);
    forall r: nat ensures log[Requested(r)] >= 1 && r !in s.blocks ==> Completions(log, r) >= 1 {
      OneOutcome(retry, c, events, r);
    }
  }

  /** For instance, a request whose reply arrives twice at once is completed twice. */
  lemma SecondReply(c: Frame.Cipher, to: Session.Endpoint, buf: Buf, content: seq<Byte>)
    requires buf.prefix >= 3
    ensures var reply := ReplyTo(c, to, 1, content);
            var events := [SendTo(to, buf)] + [reply, reply];
            && EnabledRun(Begin(2), c, events) && !CleanRun(Begin(2), c, events)
            && Completions(Run(Begin(2), multiset{}, c, events).1, 0) >= 2
  {
    var (t, sent) := Do(Begin(2), c, SendTo(to, buf));
    var reply := ReplyTo(c, to, 1, content);
    assert t.requesting == map[1 := 0];
    TwoReplies(t, multiset{} + sent.log, c, to, 1, content);
    assert ([SendTo(to, buf)] + [reply, reply])[1..] == [reply, reply];
  }

  function ReplyTo(c: Frame.Cipher, from: Session.Endpoint, id: Word, content: seq<Byte>): Event {
    Receive(from, Frame.Seal(c, Frame.Message(Frame.REPLY, id, content)), None)
  }

  lemma ReplyFeeds(s: State, c: Frame.Cipher, from: Session.Endpoint, id: Word, content: seq<Byte>)
    requires Good(s) && id in s.requesting
    ensures Do(s, c, ReplyTo(c, from, id, content)) == FeedReply(s, s.requesting[id], content)
    ensures Clean(s, c, ReplyTo(c, from, id, content)) <==> s.blocks[s.requesting[id]].remain != 0
  {
    Frame.RoundTrip(c, Frame.Message(Frame.REPLY, id, content));
  }

  lemma TwoReplies(s: State, log: multiset<Effect>, c: Frame.Cipher, from: Session.Endpoint, id: Word, content: seq<Byte>)
    requires Good(s) && id in s.requesting
    ensures var reply := ReplyTo(c, from, id, content);
            && EnabledRun(s, c, [reply, reply]) && !CleanRun(s, c, [reply, reply])
            && Completions(Run(s, log, c, [reply, reply]).1, s.requesting[id]) >= 2
  {
    var reply, ref := ReplyTo(c, from, id, content), s.requesting[id];
    ReplyFeeds(s, c, from, id, content);
    var t := FeedReply(s, ref, content).0;
    OneReply(t, log + multiset{Succeeded(ref)}, c, from, id, content);
    assert [reply, reply][1..] == [reply];
  }

  lemma OneReply(s: State, log: multiset<Effect>, c: Frame.Cipher, from: Session.Endpoint, id: Word, content: seq<Byte>)
    requires Good(s) && id in s.requesting && s.blocks[s.requesting[id]].remain == 0
    ensures var reply := ReplyTo(c, from, id, content);
            && EnabledRun(s, c, [reply]) && !CleanRun(s, c, [reply])
            && Run(s, log, c, [reply]).1 == log + multiset{Succeeded(s.requesting[id])}
  {
    ReplyFeeds(s, c, from, id, content);
    assert [ReplyTo(c, from, id, content)][1..] == [];
  }
}
