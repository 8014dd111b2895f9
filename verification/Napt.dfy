/** The translation table: two indexes over the same connections (section 2.2 of RFC 3022).
    `Table` is the table's value and its operations as functions; class `Napt` is the
    object that the operations update. */
module Napt {
  import opened Bytes
  import opened Options

  datatype ServerKey = ServerKey(serverIP: Address, serverPort: Word, localPort: Word)

  datatype ClientKey = ClientKey(clientID: Word, clientPort: Word)

  datatype Connection = Connection(
    serverIP: Address, serverPort: Word, clientID: Word, clientPort: Word, localPort: Word)
  {
    function ServerSide(): ServerKey {
      ServerKey(serverIP, serverPort, localPort)
    }

    function ClientSide(): ClientKey {
      ClientKey(clientID, clientPort)
    }
  }

  /** The order of the client index: by client, then by port. */
  predicate Less(a: ClientKey, b: ClientKey) {
    if a.clientID == b.clientID then a.clientPort < b.clientPort else a.clientID < b.clientID
  }

  /** The comparison as it is written: keys of different clients are never ordered. */
  predicate WrittenLess(a: ClientKey, b: ClientKey) {
    if a.clientID == b.clientID then a.clientPort < b.clientPort else a.clientID == b.clientID
  }

  datatype Table = Table(
    portFrom: Word, portTo: Word,
    serverMap: map<ServerKey, Connection>, clientMap: map<ClientKey, Connection>)
  {
    function FindServer(serverIP: Address, serverPort: Word, localPort: Word): Option<Connection> {
      var k := ServerKey(serverIP, serverPort, localPort);
      if k in serverMap then Some(serverMap[k]) else None
    }

    function FindClient(clientID: Word, clientPort: Word): Option<Connection> {
      var k := ClientKey(clientID, clientPort);
      if k in clientMap then Some(clientMap[k]) else None
    }

    predicate Taken(serverIP: Address, serverPort: Word, p: Word) {
      ServerKey(serverIP, serverPort, p) in serverMap
    }

    /** Every local port of the range is in use towards this server endpoint. */
    predicate Exhausted(serverIP: Address, serverPort: Word) {
      portFrom <= portTo && forall p: Word | portFrom <= p <= portTo :: Taken(serverIP, serverPort, p)
    }

    /** The port the scan from `p` ends on: the first free one, or, if there is none, the
        last of the range. But after 65535 the 16-bit counter goes on with port 0. */
    function ScanFrom(serverIP: Address, serverPort: Word, p: Word): Word
      requires p <= portTo
      decreases portTo - p
    {
      if !Taken(serverIP, serverPort, p) then p
      else if p < portTo then ScanFrom(serverIP, serverPort, p + 1)
      else if portTo == 0xffff then 0
      else portTo
    }

    /** The client's connection is already to this server endpoint. */
    predicate Reusable(clientID: Word, clientPort: Word, serverIP: Address, serverPort: Word) {
      var c := FindClient(clientID, clientPort);
      c.Some? && c.value.serverIP == serverIP && c.value.serverPort == serverPort
    }

    /** Every port there is is in the range and in use: the scan does not end. */
    predicate Endless(clientID: Word, clientPort: Word, serverIP: Address, serverPort: Word) {
      && !Reusable(clientID, clientPort, serverIP, serverPort)
      && portFrom == 0 && portTo == 0xffff && Exhausted(serverIP, serverPort)
    }

    /** When there is an answer: the connection is there already, or the range is not empty
        and the scan does not run past 65535. */
    predicate Answers(clientID: Word, clientPort: Word, serverIP: Address, serverPort: Word) {
      || Reusable(clientID, clientPort, serverIP, serverPort)
      || (portFrom <= portTo && (portTo == 0xffff ==> !Exhausted(serverIP, serverPort)))
    }

    /** The answer: none if the scan never ends, or ends on a port outside of the range. */
    function Created(clientID: Word, clientPort: Word, serverIP: Address, serverPort: Word): Option<Connection> {
      if Reusable(clientID, clientPort, serverIP, serverPort) then FindClient(clientID, clientPort)
      else if portFrom > portTo || Endless(clientID, clientPort, serverIP, serverPort) then None
      else
        var local := ScanFrom(serverIP, serverPort, portFrom);
        if local < portFrom || local > portTo then None
        else Some(Connection(serverIP, serverPort, clientID, clientPort, local))
    }

    function AfterCreate(clientID: Word, clientPort: Word, serverIP: Address, serverPort: Word): Table {
      var c := Created(clientID, clientPort, serverIP, serverPort);
      if Reusable(clientID, clientPort, serverIP, serverPort) || c.None? then this
      else this.(serverMap := serverMap[c.value.ServerSide() := c.value],
                 clientMap := clientMap[c.value.ClientSide() := c.value])
    }

    /** The connections of the client index under the given keys leave both indexes. */
    function Without(keys: set<ClientKey>): Table
      requires keys <= clientMap.Keys
    {
      this.(serverMap := serverMap - (set k | k in keys :: clientMap[k].ServerSide()),
            clientMap := clientMap - keys)
    }

    function KeysOf(clientID: Word): set<ClientKey> {
      set k | k in clientMap && k.clientID == clientID
    }

    /** What the removal walk visits: the parameter keeps 8 bits of the client's number,
        and the walk starts after port 0. */
    function Visited(clientID: Word): set<ClientKey> {
      set k | k in clientMap && k.clientID == clientID % 0x100 && k.clientPort > 0
    }

    /** Connections lie under their own keys, and local ports in the range: what every
        operation keeps. */
    ghost predicate Keyed() {
      && (forall k :: k in clientMap ==> clientMap[k].ClientSide() == k && portFrom <= clientMap[k].localPort <= portTo)
      && (forall s :: s in serverMap ==> serverMap[s].ServerSide() == s && portFrom <= s.localPort <= portTo)
    }

    /** Each client's connection is in the server index, too. */
    ghost predicate Consistent() {
      && Keyed()
      && (forall k :: k in clientMap ==>
            clientMap[k].ServerSide() in serverMap && serverMap[clientMap[k].ServerSide()] == clientMap[k])
    }
  }

  class Napt {
    const portFrom: Word
    const portTo: Word
    var serverMap: map<ServerKey, Connection>
    var clientMap: map<ClientKey, Connection>

    function Value(): Table
      reads this
    {
      Table(portFrom, portTo, serverMap, clientMap)
    }

    ghost predicate Valid()
      reads this
    {
      Value().Keyed()
    }

    constructor (availablePortFrom: Word, availablePortTo: Word)
      ensures Valid()
      ensures Value() == Table(availablePortFrom, availablePortTo, map[], map[])
    {
      portFrom, portTo := availablePortFrom, availablePortTo;
      serverMap, clientMap := map[], map[];
    }

    /** The scan's counter has 16 bits: it goes from 65535 on to 0. There the scan ends,
        as port 0 is not in use unless it is in the range. */
    method CreateIfNotExist(clientID: Word, clientPort: Word, serverIP: Address, serverPort: Word)
      returns (conn: Option<Connection>)
      requires Valid() && !Value().Endless(clientID, clientPort, serverIP, serverPort)
      modifies this
      ensures Valid()
      ensures conn == old(Value()).Created(clientID, clientPort, serverIP, serverPort)
      ensures Value() == old(Value()).AfterCreate(clientID, clientPort, serverIP, serverPort)
    {
      conn := Value().FindClient(clientID, clientPort);
      if conn.Some? && conn.value.serverIP == serverIP && conn.value.serverPort == serverPort {
        return;
      }

      var sk := Scan(serverIP, serverPort);
      if sk.localPort < portFrom || sk.localPort > portTo {
        return None;
      }

      var c := Connection(serverIP, serverPort, clientID, clientPort, sk.localPort);
      serverMap := serverMap[sk := c];
      clientMap := clientMap[ClientKey(clientID, clientPort) := c];
      return Some(c);
    }

    /** The loop over the ports. */
    method Scan(serverIP: Address, serverPort: Word) returns (sk: ServerKey)
      requires Valid()
      requires !(portFrom == 0 && portTo == 0xffff && Value().Exhausted(serverIP, serverPort))
      ensures sk.serverIP == serverIP && sk.serverPort == serverPort
      ensures sk.localPort == if portFrom <= portTo then Value().ScanFrom(serverIP, serverPort, portFrom) else 0
    {
      ghost var t := Value();
      ghost var wrapped := false;
      sk := ServerKey(serverIP, serverPort, 0);
      var p := portFrom;
      while p <= portTo
        invariant sk.serverIP == serverIP && sk.serverPort == serverPort
        invariant !wrapped ==> portFrom <= p && sk.localPort == if p == portFrom then 0 else p - 1
        invariant !wrapped ==> forall q: Word | portFrom <= q < p :: t.Taken(serverIP, serverPort, q)
        invariant !wrapped && p <= portTo ==>
                    t.ScanFrom(serverIP, serverPort, portFrom) == t.ScanFrom(serverIP, serverPort, p)
        invariant portTo < portFrom ==> p == portFrom && !wrapped
        invariant !wrapped && portFrom <= portTo < p ==>
                    p == portTo + 1 && t.ScanFrom(serverIP, serverPort, portFrom) == portTo
        invariant wrapped ==> p == 0 < portFrom <= portTo && t.ScanFrom(serverIP, serverPort, portFrom) == 0
        decreases !wrapped, portTo + 1 - p
      {
        sk := sk.(localPort := p);
        if sk !in serverMap {
          break;
        }
        wrapped := p == 0xffff;
        p := (p + 1) % 0x1_0000;
      }
    }

    /** Erases the connection under `k` from both indexes; `gone` are the keys of `t` that
        were erased before. */
    method Erase(k: ClientKey, ghost t: Table, ghost gone: set<ClientKey>)
      requires gone <= t.clientMap.Keys && Value() == t.Without(gone)
      requires k in clientMap && Valid()
      modifies this
      ensures Valid() && Value() == t.Without(gone + {k})
    {
      OneMoreGone(t, gone, k);
      serverMap := serverMap - {clientMap[k].ServerSide()};
      clientMap := clientMap - {k};
    }

    /** Walks the client index in key order from the upper bound of (client, 0) on. */
    method RemoveClient(id: Word)
      requires Valid()
      modifies this
      ensures Valid()
      ensures Value() == old(Value().Without(Value().Visited(id)))
    {
      var clientID := id % 0x100;
      ghost var t := Value();
      ghost var keys := t.Visited(id);
      var it := UpperBound(clientMap, ClientKey(clientID, 0));
      ghost var gone: set<ClientKey> := {};
      WalkStart(t, id, it);
      while it.Some?
        invariant Valid() && gone <= keys && Value() == t.Without(gone)
        invariant Walking(keys - gone, clientID, it)
        invariant it.Some? ==> it.value in clientMap
        decreases |clientMap|
      {
        if it.value.clientID != clientID {
          break;
        }
        var k := it.value;
        var next := UpperBound(clientMap, k);
        Erase(k, t, gone);
        WalkStep(t.clientMap.Keys - gone, keys - gone, clientID, k, next);
        assert keys - gone - {k} == keys - (gone + {k});
        gone, it := gone + {k}, next;
      }
      NothingLeft(keys - gone, clientID, it);
      assert keys == gone;
    }
  }

  /** No key of `rest` comes before the iterator. */
  ghost predicate Ahead(rest: set<ClientKey>, it: Option<ClientKey>) {
    forall k :: k in rest ==> it.Some? && !Less(k, it.value)
  }

  ghost function After(keys: set<ClientKey>, k: ClientKey): set<ClientKey> {
    set j | j in keys && Less(k, j)
  }

  /** Of this client's keys with a port, `rest` are left, none of them behind the iterator. */
  ghost predicate Walking(rest: set<ClientKey>, clientID: Word, it: Option<ClientKey>) {
    && Ahead(rest, it)
    && (forall k :: k in rest ==> k.clientID == clientID)
    && (it.Some? ==> Less(ClientKey(clientID, 0), it.value))
  }

  lemma WalkStart(t: Table, id: Word, it: Option<ClientKey>)
    requires Ahead(After(t.clientMap.Keys, ClientKey(id % 0x100, 0)), it)
    requires it.Some? ==> Less(ClientKey(id % 0x100, 0), it.value)
    ensures Walking(t.Visited(id) - {}, id % 0x100, it)
    ensures t == t.Without({})
  {
    assert t.Visited(id) <= After(t.clientMap.Keys, ClientKey(id % 0x100, 0));
  }

  lemma WalkStep(keys: set<ClientKey>, rest: set<ClientKey>, clientID: Word, k: ClientKey, next: Option<ClientKey>)
    requires rest <= keys && Walking(rest, clientID, Some(k)) && k in rest
    requires Ahead(After(keys, k), next) && (next.Some? ==> Less(k, next.value))
    ensures Walking(rest - {k}, clientID, next)
  {
    forall j | j in rest - {k} ensures next.Some? && !Less(j, next.value) {
      assert j in After(keys, k);
    }
  }

  /** Once the walk meets another client, or the end, this client has no key left. */
  lemma NothingLeft(rest: set<ClientKey>, clientID: Word, it: Option<ClientKey>)
    requires Walking(rest, clientID, it) && (it.Some? ==> it.value.clientID != clientID)
    ensures rest == {}
  {
    if k :| k in rest {
      assert false;
    }
  }

  lemma OneMoreGone(t: Table, gone: set<ClientKey>, k: ClientKey)
    requires gone <= t.clientMap.Keys && k in t.clientMap
    ensures var u, v := t.Without(gone), t.Without(gone + {k});
            && v.serverMap == u.serverMap - {t.clientMap[k].ServerSide()}
            && v.clientMap == u.clientMap - {k}
  {
  }

  /** The ordered map's search for the first key after `k`. */
  method UpperBound(m: map<ClientKey, Connection>, k: ClientKey) returns (it: Option<ClientKey>)
    ensures it.Some? ==> it.value in m && Less(k, it.value)
    ensures Ahead(After(m.Keys, k), it)
  {
    it := None;
    var rest := m.Keys;
    while rest != {}
      invariant rest <= m.Keys
      invariant it.Some? ==> it.value in m && Less(k, it.value)
      invariant forall j :: j in m && j !in rest && Less(k, j) ==> it.Some? && !Less(j, it.value)
      decreases |rest|
    {
      var j :| j in rest;
      if Less(k, j) && (it.None? || Less(j, it.value)) {
        it := Some(j);
      }
      rest := rest - {j};
    }
  }
}
