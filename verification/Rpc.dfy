/** The RPC object: its methods update the tables, the counter and the control blocks, and
    each is the corresponding step of `RpcSteps`. */
module Rpc {
  import opened Bytes
  import opened Options
  import Session
  import Frame
  import RpcRuns
  import opened RpcSteps

  class Rpc {
    const retry: Word
    const cryptor: Frame.Cipher
    var id: Word
    var nextRef: nat
    var pool: map<nat, Block>
    var replying: map<Key, nat>
    var requesting: map<Word, nat>
    var context: multiset<Continuation>

    function Value(): State
      reads this
    {
      State(retry, id, nextRef, pool, replying, requesting, context)
    }

    /** The tables, the blocks and the pending callbacks fit together. */
    ghost predicate Valid()
      reads this
    {
      RpcRuns.Good(Value())
    }

    constructor (cryptor: Frame.Cipher, retry: Word := 10)
      ensures Valid() && Value() == Initial(retry) && this.cryptor == cryptor
    {
      this.cryptor, this.retry := cryptor, retry;
      id, nextRef, pool, replying, requesting, context := 1, 0, map[], map[], map[], multiset{};
      new;
      RpcRuns.InitialGood(retry);
    }

    method TakeId() returns (i: Word)
      modifies this`id
      ensures i == old(id) && id == NextId(old(id))
    {
      if id == 0xffff {
        id := 1;
        return 0xffff;
      }
      i := id;
      id := id + 1;
    }

    method Malloc(b: Block) returns (ref: nat)
      modifies this`pool, this`nextRef
      ensures ref == old(nextRef) && Value() == Allocated(old(Value()), b)
    {
      ref := nextRef;
      pool := pool[ref := b];
      nextRef := nextRef + 1;
    }

    method AsyncSend(ref: nat) returns (out: Out)
      requires ref in pool
      modifies this`context
      ensures context == old(context) + multiset{Continuation(ref, pool[ref].kind, Sending)}
      ensures out == Out(multiset{Sent(ref)}, Some((pool[ref].endpoint, pool[ref].buffer.bytes)), None, None)
    {
      context := context + multiset{Continuation(ref, pool[ref].kind, Sending)};
      out := Out(multiset{Sent(ref)}, Some((pool[ref].endpoint, pool[ref].buffer.bytes)), None, None);
    }

    method OnReplyTimer(ref: nat, failed: bool) returns (out: Out)
      requires ref in pool && pool[ref].kind == Reply
      modifies this
      ensures (Value(), out) == RpcSteps.OnReplyTimer(old(Value()), ref, failed)
    {
      var control := pool[ref];
      control := control.(remain := Decrement(control.remain));
      if control.remain <= 0 || failed {
        out := Out(multiset{Released(ref, failed), Freed(ref)}, None, None, Some(control.buffer.slot));
        replying := replying - {Key(control.endpoint, control.id)};
        pool := pool - {ref};
        return;
      }
      pool := pool[ref := control];
      out := AsyncSend(ref);
    }

    method OnRequestTimer(ref: nat, failed: bool) returns (out: Out)
      requires ref in pool && pool[ref].kind == Request
      modifies this
      ensures (Value(), out) == RpcSteps.OnRequestTimer(old(Value()), ref, failed)
    {
      var control := pool[ref];
      control := control.(remain := Decrement(control.remain));
      if control.remain <= 0 || failed {
        out := Out(multiset{Freed(ref)}, None, None, None);
        if control.remain == 0 {
          out := Out(multiset{TimedOut(ref), Freed(ref)}, None, None, Some(control.buffer.slot));
        } else if failed {
          out := Out(multiset{SendFailed(ref), Freed(ref)}, None, None, Some(control.buffer.slot));
        }
        requesting := requesting - {control.id};
        pool := pool - {ref};
        return;
      }
      pool := pool[ref := control];
      out := AsyncSend(ref);
    }

    /** The callback registered by `AsyncSend`, or by the timer that it starts. */
    method Fire(k: Continuation, failed: bool, now: nat) returns (out: Out)
      requires Valid() && k in context
      modifies this
      ensures Valid() && k.ref in old(pool) && old(pool)[k.ref].kind == k.kind
      ensures (Value(), out) == RpcSteps.Continue(old(Value()), k, failed, now)
    {
      RpcRuns.PendingIsLive(Value(), k);
      RpcRuns.ContinueGood(Value(), k, failed, now);
      context := context - multiset{k};
      if k.stage == Sending && !failed {
        StartTimer(k.ref, now);
        out := SILENT;
      } else {
        out := OnTimer(k.ref, failed);
      }
    }

    method StartTimer(ref: nat, now: nat)
      requires ref in pool
      modifies this`pool, this`context
      ensures Value() == TimerStarted(old(Value()), ref, now)
    {
      pool := pool[ref := pool[ref].(expiry := now + SECOND)];
      context := context + multiset{Continuation(ref, pool[ref].kind, Waiting)};
    }

    /** The handler that was registered for the block. */
    method OnTimer(ref: nat, failed: bool) returns (out: Out)
      requires ref in pool
      modifies this
      ensures (Value(), out) == RpcSteps.OnTimer(old(Value()), ref, failed)
    {
      if pool[ref].kind == Reply {
        out := OnReplyTimer(ref, failed);
      } else {
        out := OnRequestTimer(ref, failed);
      }
    }

    method Send(to: Session.Endpoint, buf: Buf) returns (out: Out)
      requires Valid()
      modifies this
      ensures Valid() && (Value(), out) == RpcSteps.Send(old(Value()), cryptor, to, buf)
    {
      RpcRuns.StepGood(Value(), cryptor, RpcRuns.SendTo(to, buf));
      if buf.prefix < 3 {
        return SILENT.(log := multiset{Refused});
      }
      ghost var s := Value();
      var i := TakeId();
      var ref := Malloc(Block(Request, ToInt8(retry), 0, to, i, Framed(cryptor, buf, Frame.REQUEST, i)));
      requesting := requesting[i := ref];
      assert Value() == Allocated(s, pool[ref]).(nextId := NextId(i), requesting := s.requesting[i := ref]);
      out := OnRequestTimer(ref, false);
      out := out.(log := out.log + multiset{Requested(ref)});
    }

    method Feed(from: Session.Endpoint, frame: seq<Byte>, handler: Option<Buf>) returns (out: Out)
      requires Valid() && |frame| >= 3
      modifies this
      ensures Valid() && (Value(), out) == RpcSteps.Feed(old(Value()), cryptor, from, frame, handler)
    {
      RpcRuns.StepGood(Value(), cryptor, RpcRuns.Receive(from, frame, handler));
      var m := Frame.Open(cryptor, frame);
      if m.command == Frame.REQUEST && Key(from, m.id) !in replying {
        out := SILENT.(log := multiset{Handled(Key(from, m.id))});
        if handler.Some? {
          if handler.value.prefix < 3 {
            return SILENT.(log := multiset{Handled(Key(from, m.id)), Refused});
          }
          var ref := Malloc(Block(Reply, ToInt8(retry), 0, from, m.id, Framed(cryptor, handler.value, Frame.REPLY, m.id)));
          replying := replying[Key(from, m.id) := ref];
          var sent := OnReplyTimer(ref, false);
          out := sent.(log := sent.log + multiset{Handled(Key(from, m.id)), Accepted(ref)});
        }
      } else if m.command == Frame.REPLY && m.id in requesting {
        var ref := requesting[m.id];
        out := Out(multiset{Succeeded(ref)}, None, Some((ref, m.content)), Some(pool[ref].buffer.slot));
        pool := pool[ref := pool[ref].(remain := 0)];
      } else {
        out := SILENT;
      }
    }
  }
}
