/** Slots of the server's session table. */
module Session {
  import opened Bytes

  /** A UDP endpoint. */
  datatype Endpoint = Endpoint(address: Address, port: Word)

  datatype Status = Idle | Connected | Disconnected | Error

  /** The key and the initialisation vector of a session's cipher. */
  datatype Secret = Secret(key: seq<Byte>, iv: seq<Byte>)

  datatype Session = Session(endpoint: Endpoint, clientId: Word, status: Status, transmittedBytes: nat, secret: Secret)
  {
    predicate IsConnected() {
      status == Connected
    }

    predicate IsIdle() {
      status == Idle
    }

    /** The slot taken over by a new client, with a newly drawn secret. */
    function Reset(id: Word, from: Endpoint, secret: Secret): Session {
      Session(from, id, Connected, 0, secret)
    }

    /** The 64-bit byte counter. */
    function UpdateTransmit(len: nat): Session {
      this.(transmittedBytes := (transmittedBytes + len) % 0x1_0000_0000_0000_0000)
    }
  }

  /** A slot before its first use; nothing reads its secret. */
  const UNUSED := Session(Endpoint([0, 0, 0, 0], 0), 0, Idle, 0, Secret([], []))

  /** The slot a new client gets: the last idle one, or else one more. */
  function Slot(sessions: seq<Session>, n: nat): (i: int)
    requires n <= |sessions|
    ensures -1 <= i < n
  {
    if n == 0 then -1 else if sessions[n - 1].IsIdle() then n - 1 else Slot(sessions, n - 1)
  }

  function Connect(sessions: seq<Session>, from: Endpoint, secret: Secret): (r: seq<Session>)
    requires |sessions| < 0x8000
  {
    var id := Slot(sessions, |sessions|);
    if id == -1 then sessions + [UNUSED.Reset(|sessions|, from, secret)]
    else sessions[id := sessions[id].Reset(id, from, secret)]
  }

  /** The first connected slot of an endpoint, at index `i` or later. */
  function Find(sessions: seq<Session>, from: Endpoint, i: nat): (f: int)
    requires i <= |sessions|
    ensures f == -1 || i <= f < |sessions|
    decreases |sessions| - i
  {
    if i == |sessions| then -1
    else if sessions[i].endpoint == from && sessions[i].IsConnected() then i
    else Find(sessions, from, i + 1)
  }

  function Ping(sessions: seq<Session>, from: Endpoint): seq<Session> {
    var i := Find(sessions, from, 0);
    if i == -1 then sessions else sessions[i := sessions[i].UpdateTransmit(0)]
  }

  function Disconnect(sessions: seq<Session>, from: Endpoint): seq<Session> {
    var i := Find(sessions, from, 0);
    if i == -1 then sessions else sessions[i := sessions[i].(status := Idle)]
  }

  lemma {:induction false} SlotIsLastIdle(sessions: seq<Session>, n: nat)
    requires n <= |sessions|
    ensures Slot(sessions, n) >= 0 ==> sessions[Slot(sessions, n)].status == Idle
    ensures forall j :: Slot(sessions, n) < j < n ==> sessions[j].status != Idle
  {
    if n > 0 && !sessions[n - 1].IsIdle() {
      SlotIsLastIdle(sessions, n - 1);
    }
  }

  lemma {:induction false} FindIsFirst(sessions: seq<Session>, from: Endpoint, i: nat)
    requires i <= |sessions|
    ensures var f := Find(sessions, from, i);
            && (f == -1 || (i <= f < |sessions| && sessions[f].endpoint == from && sessions[f].status == Connected))
            && forall j :: i <= j < (if f == -1 then |sessions| else f) ==>
                 !(sessions[j].endpoint == from && sessions[j].status == Connected)
    decreases |sessions| - i
  {
    if i < |sessions| && !(sessions[i].endpoint == from && sessions[i].IsConnected()) {
      FindIsFirst(sessions, from, i + 1);
    }
  }

  /** Connecting changes one slot, which was idle or new; every connected client keeps
      its own. */
  lemma ConnectKeepsOthers(sessions: seq<Session>, from: Endpoint, secret: Secret)
    requires |sessions| < 0x8000
    ensures var r, id := Connect(sessions, from, secret), Slot(sessions, |sessions|);
            && |r| == (if id == -1 then |sessions| + 1 else |sessions|)
            && (forall j :: 0 <= j < |sessions| && sessions[j].status != Idle ==> r[j] == sessions[j])
            && (exists k :: 0 <= k < |r| && r[k] == Session(from, k, Connected, 0, secret)
                            && (k < |sessions| ==> sessions[k].status == Idle)
                            && forall j :: 0 <= j < |sessions| && j != k ==> r[j] == sessions[j])
  {
    SlotIsLastIdle(sessions, |sessions|);
    var id := Slot(sessions, |sessions|);
    var k := if id == -1 then |sessions| else id;
    assert Connect(sessions, from, secret)[k] == Session(from, k, Connected, 0, secret);
  }

  /** Disconnecting frees at most one slot, and only one of that endpoint. */
  lemma DisconnectKeepsOthers(sessions: seq<Session>, from: Endpoint)
    ensures |Disconnect(sessions, from)| == |sessions|
    ensures forall j :: 0 <= j < |sessions| && sessions[j].endpoint != from ==>
              Disconnect(sessions, from)[j] == sessions[j]
    ensures forall j :: 0 <= j < |sessions| ==> Disconnect(sessions, from)[j].endpoint == sessions[j].endpoint
  {
    FindIsFirst(sessions, from, 0);
  }
}
