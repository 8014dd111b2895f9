/** The RPC machine of one endpoint as a state and its steps. Control blocks are named by
    handles; `pending` holds the callbacks registered with the I/O context, each of which
    fires once. */
module RpcSteps {
  import opened Bytes
  import opened Options
  import Session
  import Frame

  /** One second of the steady clock, the retransmission period. */
  const SECOND: nat := 1_000_000_000

  /** The countdown's type wraps at 8 bits. */
  type Int8 = x: int | -0x80 <= x < 0x80

  function ToInt8(x: Word): Int8 {
    if x % 0x100 < 0x80 then x % 0x100 else x % 0x100 - 0x100
  }

  function Decrement(x: Int8): Int8 {
    if x == -0x80 then 0x7f else x - 1
  }

  /** A pool buffer: its slot, the space before its window, and the window's bytes. */
  datatype Buf = Buf(slot: nat, prefix: nat, bytes: seq<Byte>)

  /** Whose completion callback a control block carries. */
  datatype Kind = Request | Reply

  datatype Block = Block(kind: Kind, remain: Int8, expiry: nat, endpoint: Session.Endpoint, id: Word, buffer: Buf)

  /** What a pending callback waits for. */
  datatype Stage = Sending | Waiting

  datatype Continuation = Continuation(ref: nat, kind: Kind, stage: Stage)

  datatype Key = Key(endpoint: Session.Endpoint, id: Word)

  /** What a step does besides changing the state, for counting. */
  datatype Effect =
    | Requested(ref: nat)
    | Accepted(ref: nat)
    | Sent(ref: nat)
    | Succeeded(ref: nat)
    | TimedOut(ref: nat)
    | SendFailed(ref: nat)
    | Released(ref: nat, failed: bool)
    | Freed(ref: nat)
    | Handled(key: Key)
    | Refused

  /** A step's effects; the packet given to the socket; the reply handed to a request's
      callback; the pool slot whose owner's callback was called. */
  datatype Out = Out(
    log: multiset<Effect>,
    wire: Option<(Session.Endpoint, seq<Byte>)>,
    answer: Option<(nat, seq<Byte>)>,
    done: Option<nat>)

  const SILENT := Out(multiset{}, None, None, None)

  datatype State = State(
    retry: Word, nextId: Word, nextRef: nat,
    blocks: map<nat, Block>, replying: map<Key, nat>, requesting: map<Word, nat>,
    pending: multiset<Continuation>)

  function Initial(retry: Word): State {
    State(retry, 1, 0, map[], map[], map[], multiset{})
  }

  function NextId(id: Word): Word {
    if id == 0xffff then 1 else id + 1
  }

  /** The three-byte header put before the content. */
  function Framed(c: Frame.Cipher, b: Buf, command: Byte, id: Word): Buf
    requires b.prefix >= 3
  {
    Buf(b.slot, b.prefix - 3, Frame.Seal(c, Frame.Message(command, id, b.bytes)))
  }

  /** The countdown goes on: the block's packet is sent once more. */
  function SendAgain(s: State, ref: nat): (State, Out)
    requires ref in s.blocks
  {
    var b := s.blocks[ref];
    (s.(blocks := s.blocks[ref := b.(remain := Decrement(b.remain))],
        pending := s.pending + multiset{Continuation(ref, b.kind, Sending)}),
     Out(multiset{Sent(ref)}, Some((b.endpoint, b.buffer.bytes)), None, None))
  }

  function KeyOf(b: Block): Key {
    Key(b.endpoint, b.id)
  }

  /** The state after a block is freed. */
  function Dropped(s: State, ref: nat): State
    requires ref in s.blocks
  {
    if s.blocks[ref].kind == Reply then s.(replying := s.replying - {KeyOf(s.blocks[ref])}, blocks := s.blocks - {ref})
    else s.(requesting := s.requesting - {s.blocks[ref].id}, blocks := s.blocks - {ref})
  }

  function OnReplyTimer(s: State, ref: nat, failed: bool): (State, Out)
    requires ref in s.blocks && s.blocks[ref].kind == Reply
  {
    var b := s.blocks[ref];
    if Decrement(b.remain) <= 0 || failed then
      (Dropped(s, ref), Out(multiset{Released(ref, failed), Freed(ref)}, None, None, Some(b.buffer.slot)))
    else
      SendAgain(s, ref)
  }

  function OnRequestTimer(s: State, ref: nat, failed: bool): (State, Out)
    requires ref in s.blocks && s.blocks[ref].kind == Request
  {
    var b := s.blocks[ref];
    if Decrement(b.remain) <= 0 || failed then
      (Dropped(s, ref),
       if Decrement(b.remain) == 0 then Out(multiset{TimedOut(ref), Freed(ref)}, None, None, Some(b.buffer.slot))
       else if failed then Out(multiset{SendFailed(ref), Freed(ref)}, None, None, Some(b.buffer.slot))
       else Out(multiset{Freed(ref)}, None, None, None))
    else
      SendAgain(s, ref)
  }

  function OnTimer(s: State, ref: nat, failed: bool): (State, Out)
    requires ref in s.blocks
  {
    if s.blocks[ref].kind == Reply then OnReplyTimer(s, ref, failed) else OnRequestTimer(s, ref, failed)
  }

  /** The timer that follows a completed send. */
  function TimerStarted(s: State, ref: nat, now: nat): State
    requires ref in s.blocks
  {
    s.(blocks := s.blocks[ref := s.blocks[ref].(expiry := now + SECOND)],
       pending := s.pending + multiset{Continuation(ref, s.blocks[ref].kind, Waiting)})
  }

  /** A pending callback fires, with or without an error. */
  function Continue(s: State, k: Continuation, failed: bool, now: nat): (State, Out)
    requires k in s.pending && k.ref in s.blocks && s.blocks[k.ref].kind == k.kind
  {
    var t := s.(pending := s.pending - multiset{k});
    if k.stage == Sending && !failed then (TimerStarted(t, k.ref, now), SILENT) else OnTimer(t, k.ref, failed)
  }

  /** The state with a new control block, not yet in a table. */
  function Allocated(s: State, b: Block): State {
    s.(nextRef := s.nextRef + 1, blocks := s.blocks[s.nextRef := b])
  }

  /** The state of `Send` before the first transmission. */
  function SendStart(s: State, c: Frame.Cipher, to: Session.Endpoint, buf: Buf): State
    requires buf.prefix >= 3
  {
    Allocated(s, Block(Request, ToInt8(s.retry), 0, to, s.nextId, Framed(c, buf, Frame.REQUEST, s.nextId)))
      .(nextId := NextId(s.nextId), requesting := s.requesting[s.nextId := s.nextRef])
  }

  function Send(s: State, c: Frame.Cipher, to: Session.Endpoint, buf: Buf): (State, Out)
    requires s.nextRef !in s.blocks
  {
    if buf.prefix < 3 then (s, SILENT.(log := multiset{Refused}))
    else
      var (u, out) := OnRequestTimer(SendStart(s, c, to, buf), s.nextRef, false);
      (u, out.(log := out.log + multiset{Requested(s.nextRef)}))
  }

  /** A frame arrives. `handler` is what the request handler does if it is called: reject,
      or accept with a buffer to reply. */
  function Feed(s: State, c: Frame.Cipher, from: Session.Endpoint, frame: seq<Byte>, handler: Option<Buf>): (State, Out)
    requires |frame| >= 3 && s.nextRef !in s.blocks
    requires forall id :: id in s.requesting ==> s.requesting[id] in s.blocks
  {
    var m := Frame.Open(c, frame);
    if m.command == Frame.REQUEST && Key(from, m.id) !in s.replying then
      FeedRequest(s, c, Key(from, m.id), handler)
    else if m.command == Frame.REPLY && m.id in s.requesting then
      FeedReply(s, s.requesting[m.id], m.content)
    else
      (s, SILENT)
  }

  /** The state of `FeedRequest` before the first transmission. */
  function ReplyStart(s: State, c: Frame.Cipher, key: Key, buf: Buf): State
    requires buf.prefix >= 3
  {
    Allocated(s, Block(Reply, ToInt8(s.retry), 0, key.endpoint, key.id, Framed(c, buf, Frame.REPLY, key.id)))
      .(replying := s.replying[key := s.nextRef])
  }

  function FeedRequest(s: State, c: Frame.Cipher, key: Key, handler: Option<Buf>): (State, Out)
    requires s.nextRef !in s.blocks
  {
    if handler.None? then (s, SILENT.(log := multiset{Handled(key)}))
    else if handler.value.prefix < 3 then (s, SILENT.(log := multiset{Handled(key), Refused}))
    else
      var (u, out) := OnReplyTimer(ReplyStart(s, c, key, handler.value), s.nextRef, false);
      (u, out.(log := out.log + multiset{Handled(key), Accepted(s.nextRef)}))
  }

  /** The callback is called on every reply, whatever the countdown; then it is set to 0. */
  function FeedReply(s: State, ref: nat, content: seq<Byte>): (State, Out)
    requires ref in s.blocks
  {
    (s.(blocks := s.blocks[ref := s.blocks[ref].(remain := 0)]),
     Out(multiset{Succeeded(ref)}, None, Some((ref, content)), Some(s.blocks[ref].buffer.slot)))
  }
}
