/** Request ids: how long it takes until one is drawn again. */
module RpcIds {
  import opened Bytes
  import opened Options
  import Session
  import Frame
  import opened RpcSteps
  import opened RpcRuns

  /** The id of the (n + 1)-th request. */
  function IdAt(n: nat): Word {
    n % 0xffff + 1
  }

  lemma NextIdCounts(n: nat)
    ensures IdAt(0) == 1 && NextId(IdAt(n)) == IdAt(n + 1) && IdAt(n) != 0
  {
  }

  /** Any 65535 consecutive ids are distinct. */
  lemma IdsDistinct(i: nat, j: nat)
    requires i < j < i + 0xffff
    ensures IdAt(i) != IdAt(j)
  {
  }

  /** `issued` are the handles of the requests sent so far, in order. */
  ghost predicate Numbered(s: State, issued: seq<nat>) {
    && s.nextId == IdAt(|issued|)
    && (forall n :: 0 <= n < |issued| && issued[n] in s.blocks ==>
          s.blocks[issued[n]].kind == Request && s.blocks[issued[n]].id == IdAt(n))
    && (forall r :: r in s.blocks && s.blocks[r].kind == Request ==> r in issued)
    && (forall n :: 0 <= n < |issued| ==> issued[n] < s.nextRef)
  }

  function Issued(s: State, issued: seq<nat>, e: Event): seq<nat> {
    if e.SendTo? && e.buf.prefix >= 3 then issued + [s.nextRef] else issued
  }

  lemma SendNumbered(s: State, issued: seq<nat>, c: Frame.Cipher, to: Session.Endpoint, buf: Buf)
    requires Good(s) && Numbered(s, issued) && buf.prefix >= 3
    ensures Numbered(SendStart(s, c, to, buf), issued + [s.nextRef])
  {
    NextIdCounts(|issued|);
    var t := SendStart(s, c, to, buf);
    forall r | r in t.blocks && t.blocks[r].kind == Request ensures r in issued + [s.nextRef] {
      assert r == s.nextRef || r in issued;
    }
  }

  lemma ReplyNumbered(s: State, issued: seq<nat>, c: Frame.Cipher, key: Key, buf: Buf)
    requires Good(s) && Numbered(s, issued) && buf.prefix >= 3
    ensures Numbered(ReplyStart(s, c, key, buf), issued)
  {
  }

  lemma StepNumbered(s: State, issued: seq<nat>, c: Frame.Cipher, e: Event)
    requires Good(s) && Numbered(s, issued) && Enabled(s, e)
    ensures Numbered(Do(s, c, e).0, Issued(s, issued, e))
  {
    match e
    case SendTo(to, buf) =>
      if buf.prefix >= 3 {
        SendNumbered(s, issued, c, to, buf);
        TimerNumbered(SendStart(s, c, to, buf), issued + [s.nextRef], s.nextRef, false);
      }
    case Receive(from, frame, handler) => ReceiveNumbered(s, issued, c, from, frame, handler);
    case Fire(k, failed, now) => FireNumbered(s, issued, c, k, failed, now);
  }

  lemma ReceiveNumbered(s: State, issued: seq<nat>, c: Frame.Cipher, from: Session.Endpoint, frame: seq<Byte>, handler: Option<Buf>)
    requires Good(s) && Numbered(s, issued) && |frame| >= 3
    ensures Numbered(Do(s, c, Receive(from, frame, handler)).0, issued)
  {
    var m := Frame.Open(c, frame);
    if m.command == Frame.REQUEST && Key(from, m.id) !in s.replying && handler.Some? && handler.value.prefix >= 3 {
      ReplyNumbered(s, issued, c, Key(from, m.id), handler.value);
      TimerNumbered(ReplyStart(s, c, Key(from, m.id), handler.value), issued, s.nextRef, false);
    }
  }

  lemma FireNumbered(s: State, issued: seq<nat>, c: Frame.Cipher, k: Continuation, failed: bool, now: nat)
    requires Good(s) && Numbered(s, issued) && k in s.pending
    ensures Numbered(Do(s, c, Fire(k, failed, now)).0, issued)
  {
    FiredIs(s, c, k, failed, now);
    var u := s.(pending := s.pending - multiset{k});
    if k.stage == Sending && !failed {
      StartedNumbered(u, issued, k.ref, now);
    } else {
      TimerNumbered(u, issued, k.ref, failed);
    }
  }

  lemma StartedNumbered(s: State, issued: seq<nat>, ref: nat, now: nat)
    requires Numbered(s, issued) && ref in s.blocks
    ensures Numbered(TimerStarted(s, ref, now), issued)
  {
  }

  lemma TimerNumbered(s: State, issued: seq<nat>, ref: nat, failed: bool)
    requires Numbered(s, issued) && ref in s.blocks
    ensures Numbered(OnTimer(s, ref, failed).0, issued)
  {
    TimerShape(s, ref, failed);
  }

  /** The next id is free as long as no request is still live when 65535 more are sent. */
  lemma NextIdFree(s: State, issued: seq<nat>)
    requires Good(s) && Numbered(s, issued)
    requires forall n :: 0 <= n && n + 0xffff <= |issued| ==> issued[n] !in s.blocks
    ensures s.nextId !in s.requesting
  {
    if s.nextId in s.requesting {
      var r := s.requesting[s.nextId];
      var n :| 0 <= n < |issued| && issued[n] == r;
      IdsDistinct(n, |issued|);
    }
  }

  /** A run that lets no request live for 65535 further sends. */
  ghost predicate Prompt(s: State, issued: seq<nat>, c: Frame.Cipher, events: seq<Event>)
    requires Good(s) && EnabledRun(s, c, events)
    decreases |events|
  {
    && (forall n :: 0 <= n && n + 0xffff <= |issued| ==> issued[n] !in s.blocks)
    && (events != [] ==> Prompt(Do(s, c, events[0]).0, Issued(s, issued, events[0]), c, events[1..]))
  }

  /** From the start on, in such a run no send ever overwrites the table entry of a live
      request: at the end, and so after every prefix, each live request is in the table
      under its id. */
  lemma NoOverwrite(retry: Word, c: Frame.Cipher, events: seq<Event>)
    requires EnabledRun(Begin(retry), c, events) && Prompt(Begin(retry), [], c, events)
    ensures AllRegistered(Run(Begin(retry), multiset{}, c, events).0)
  {
    NextIdCounts(0);
    RunRegistered(Begin(retry), [], c, events);
  }

  lemma {:induction false} RunRegistered(s: State, issued: seq<nat>, c: Frame.Cipher, events: seq<Event>)
    requires Good(s) && Numbered(s, issued) && AllRegistered(s)
    requires EnabledRun(s, c, events) && Prompt(s, issued, c, events)
    ensures AllRegistered(Run(s, multiset{}, c, events).0)
    decreases |events|
  {
    if events != [] {
      var e := events[0];
      NextIdFree(s, issued);
      StepNumbered(s, issued, c, e);
      if e.Fire? {
        FireKeepsRegistered(s, c, e.k, e.failed, e.now);
      } else {
        OthersKeepRegistered(s, c, e);
      }
      RunRegistered(Do(s, c, e).0, Issued(s, issued, e), c, events[1..]);
      RunState(Do(s, c, e).0, multiset{} + Do(s, c, e).1.log, multiset{}, c, events[1..]);
    }
  }

  /** The log does not influence the state. */
  lemma {:induction false} RunState(s: State, a: multiset<Effect>, b: multiset<Effect>, c: Frame.Cipher, events: seq<Event>)
    requires Good(s) && EnabledRun(s, c, events)
    ensures Run(s, a, c, events).0 == Run(s, b, c, events).0
    decreases |events|
  {
    if events != [] {
      var (t, out) := Do(s, c, events[0]);
      RunState(t, a + out.log, b + out.log, c, events[1..]);
    }
  }
}
