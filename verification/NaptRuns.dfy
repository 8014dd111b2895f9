/** What the translation table keeps over its operations and over whole runs. */
module NaptRuns {
  import opened Bytes
  import opened Options
  import opened Napt

  // The key order

  lemma StrictTotalOrder(a: ClientKey, b: ClientKey, c: ClientKey)
    ensures Less(a, b) <==>
              0x1_0000 * (a.clientID as int) + a.clientPort as int < 0x1_0000 * (b.clientID as int) + b.clientPort as int
    ensures !Less(a, a)
    ensures Less(a, b) && Less(b, c) ==> Less(a, c)
    ensures a != b ==> (Less(a, b) <==> !Less(b, a))
    ensures Less(a, b) && Less(b, c) && a.clientID == c.clientID ==> b.clientID == a.clientID
  {
  }

  /** As written, the comparison tells the keys of an index apart exactly when they all
      belong to one client. */
  lemma WrittenOrderSeparates(keys: set<ClientKey>)
    ensures (forall a, b :: a in keys && b in keys && a != b ==> WrittenLess(a, b) || WrittenLess(b, a)) <==>
            (forall a, b :: a in keys && b in keys ==> a.clientID == b.clientID)
  {
    if forall a, b :: a in keys && b in keys && a != b ==> WrittenLess(a, b) || WrittenLess(b, a) {
      forall a, b | a in keys && b in keys ensures a.clientID == b.clientID {
        assert a != b ==> WrittenLess(a, b) || WrittenLess(b, a);
      }
    }
  }

  // The port scan

  /** The scan yields the least free port. Only when there is none does it end elsewhere: on
      the last port of the range, which is in use, or on port 0 if that was 65535. */
  lemma {:induction false} ScanIsLeast(t: Table, ip: Address, port: Word, p: Word)
    requires p <= t.portTo
    ensures var end := t.ScanFrom(ip, port, p);
            if forall q: Word :: p <= q <= t.portTo ==> t.Taken(ip, port, q) then
              end == if t.portTo == 0xffff then 0 else t.portTo
            else
              p <= end <= t.portTo && !t.Taken(ip, port, end) && forall q: Word :: p <= q < end ==> t.Taken(ip, port, q)
    decreases t.portTo - p
  {
    if p < t.portTo && t.Taken(ip, port, p) {
      ScanIsLeast(t, ip, port, p + 1);
    }
  }

  /** The 16-bit counter after `n` rounds of the scan; none once the loop is left. */
  function Counter(t: Table, ip: Address, port: Word, n: nat): Option<Word> {
    if n == 0 then
      if t.portFrom <= t.portTo then Some(t.portFrom) else None
    else match Counter(t, ip, port, n - 1)
      case None => None
      case Some(p) =>
        var q := (p + 1) % 0x1_0000;
        if t.Taken(ip, port, p) && q <= t.portTo then Some(q) else None
  }

  /** Exactly when the scan does not end: all 65536 ports are in the range and in use. */
  lemma ScanEnds(t: Table, ip: Address, port: Word)
    requires t.Keyed()
    ensures (exists n: nat :: Counter(t, ip, port, n) == None) <==>
              !(t.portFrom == 0 && t.portTo == 0xffff && t.Exhausted(ip, port))
  {
    if t.portFrom == 0 && t.portTo == 0xffff && t.Exhausted(ip, port) {
      forall n: nat ensures Counter(t, ip, port, n).Some? {
        CounterCycles(t, ip, port, n);
      }
    } else {
      var n := ScanStops(t, ip, port);
    }
  }

  lemma ScanStops(t: Table, ip: Address, port: Word) returns (n: nat)
    requires t.Keyed() && !(t.portFrom == 0 && t.portTo == 0xffff && t.Exhausted(ip, port))
    ensures Counter(t, ip, port, n) == None
  {
    if t.portFrom > t.portTo {
      n := 0;
    } else if t.Exhausted(ip, port) {
      n := ExhaustedScanStops(t, ip, port);
    } else {
      ScanIsLeast(t, ip, port, t.portFrom);
      assert exists q: Word :: t.portFrom <= q <= t.portTo && !t.Taken(ip, port, q);
      n := t.ScanFrom(ip, port, t.portFrom) - t.portFrom + 1;
      CounterAdvances(t, ip, port, n - 1);
    }
  }

  lemma ExhaustedScanStops(t: Table, ip: Address, port: Word) returns (n: nat)
    requires t.Keyed() && t.Exhausted(ip, port) && (t.portFrom > 0 || t.portTo < 0xffff)
    ensures Counter(t, ip, port, n) == None
  {
    n := t.portTo - t.portFrom + 1;
    CounterAdvances(t, ip, port, n - 1);
    assert t.Taken(ip, port, t.portTo);
    if t.portTo == 0xffff {
      assert Counter(t, ip, port, n) == Some(0);
      n := n + 1;
    }
  }

  lemma {:induction false} CounterCycles(t: Table, ip: Address, port: Word, n: nat)
    requires t.portFrom == 0 && t.portTo == 0xffff && t.Exhausted(ip, port)
    ensures Counter(t, ip, port, n).Some?
  {
    if n > 0 {
      CounterCycles(t, ip, port, n - 1);
      assert t.Taken(ip, port, Counter(t, ip, port, n - 1).value);
    }
  }

  lemma {:induction false} CounterAdvances(t: Table, ip: Address, port: Word, n: nat)
    requires t.portFrom + n <= t.portTo
    requires forall q: Word :: t.portFrom <= q < t.portFrom + n ==> t.Taken(ip, port, q)
    ensures Counter(t, ip, port, n) == Some(t.portFrom + n)
  {
    if n > 0 {
      CounterAdvances(t, ip, port, n - 1);
      assert t.Taken(ip, port, t.portFrom + n - 1);
    }
  }

  ghost function EntriesTo(t: Table, ip: Address, port: Word): set<ServerKey> {
    set k | k in t.serverMap && k.serverIP == ip && k.serverPort == port
  }

  ghost function Slots(ip: Address, port: Word, low: Word, count: nat): (s: set<ServerKey>)
    requires low + count <= 0x1_0000
    ensures forall k :: k in s <==> k.serverIP == ip && k.serverPort == port && low <= k.localPort < low + count
    ensures |s| == count
  {
    if count == 0 then {} else Slots(ip, port, low, count - 1) + {ServerKey(ip, port, low + count - 1)}
  }

  /** By counting: a range is exhausted exactly when there are as many connections to the
      server endpoint as there are ports. */
  lemma ExhaustedByCount(t: Table, ip: Address, port: Word)
    requires t.Keyed() && t.portFrom <= t.portTo
    ensures t.Exhausted(ip, port) <==> |EntriesTo(t, ip, port)| >= t.portTo - t.portFrom + 1
  {
    var slots := Slots(ip, port, t.portFrom, t.portTo - t.portFrom + 1);
    var used := EntriesTo(t, ip, port);
    assert used <= slots;
    if t.Exhausted(ip, port) {
      forall k | k in slots ensures k in used {
        assert t.Taken(ip, port, k.localPort);
      }
      assert used == slots;
    } else {
      var p: Word :| t.portFrom <= p <= t.portTo && !t.Taken(ip, port, p);
      var hole := ServerKey(ip, port, p);
      assert used <= slots - {hole};
      Smaller(used, slots - {hole});
    }
  }

  lemma {:induction false} Smaller<T>(a: set<T>, b: set<T>)
    requires a <= b
    ensures |a| <= |b|
  {
    if a != {} {
      var x :| x in a;
      Smaller(a - {x}, b - {x});
    }
  }

  // One operation

  lemma EmptyConsistent(portFrom: Word, portTo: Word)
    ensures Table(portFrom, portTo, map[], map[]).Consistent()
  {
  }

  /** There is no answer exactly when a new connection is needed and the range is empty, or
      ends at 65535 and is exhausted; then nothing changes. */
  lemma AnswersExactly(t: Table, id: Word, cp: Word, ip: Address, port: Word)
    requires t.Keyed()
    ensures var c := t.Created(id, cp, ip, port);
            && (c.Some? <==> t.Answers(id, cp, ip, port))
            && (c.None? ==> t.AfterCreate(id, cp, ip, port) == t)
            && (c.Some? ==> c.value.ClientSide() == ClientKey(id, cp) && c.value.serverIP == ip && c.value.serverPort == port)
  {
    if t.portFrom <= t.portTo {
      ScanIsLeast(t, ip, port, t.portFrom);
    }
  }

  /** The client's connection to this server endpoint is in use again, but its entry in the
      server index was taken by another. */
  predicate Stale(t: Table, id: Word, cp: Word, ip: Address, port: Word) {
    && t.Reusable(id, cp, ip, port)
    && t.FindServer(ip, port, t.FindClient(id, cp).value.localPort) != t.FindClient(id, cp)
  }

  /** An answer is the connection in place or a new one. The lookup by client then finds it,
      and the lookup by server exactly if it is not stale. */
  lemma CreateAnswers(t: Table, id: Word, cp: Word, ip: Address, port: Word)
    requires t.Keyed() && t.Answers(id, cp, ip, port)
    ensures var c, u := t.Created(id, cp, ip, port), t.AfterCreate(id, cp, ip, port);
            && c.Some?
            && c.value.ClientSide() == ClientKey(id, cp)
            && c.value.serverIP == ip && c.value.serverPort == port
            && t.portFrom <= c.value.localPort <= t.portTo
            && u.FindClient(id, cp) == c
            && (u.FindServer(ip, port, c.value.localPort) == c <==> !Stale(t, id, cp, ip, port))
  {
    AnswersExactly(t, id, cp, ip, port);
  }

  /** A new connection is needed, the range is exhausted, and its last port, which is not
      65535, belongs to somebody else. */
  predicate Displaces(t: Table, id: Word, cp: Word, ip: Address, port: Word) {
    && !t.Reusable(id, cp, ip, port)
    && t.Exhausted(ip, port) && t.portTo < 0xffff
    && t.FindServer(ip, port, t.portTo).Some?
    && t.FindServer(ip, port, t.portTo).value.ClientSide() != ClientKey(id, cp)
  }

  /** What is displaced is still in the client index. */
  predicate Breaks(t: Table, id: Word, cp: Word, ip: Address, port: Word) {
    && Displaces(t, id, cp, ip, port)
    && var c := t.FindServer(ip, port, t.portTo);
       t.FindClient(c.value.clientID, c.value.clientPort) == c
  }

  ghost predicate KeepsEntries(t: Table, u: Table) {
    forall k :: k in t.serverMap ==> k in u.serverMap && u.serverMap[k] == t.serverMap[k]
  }

  /** Exactly which creations take a server entry from another connection. */
  lemma CreateDisplaces(t: Table, id: Word, cp: Word, ip: Address, port: Word)
    requires t.Keyed()
    ensures KeepsEntries(t, t.AfterCreate(id, cp, ip, port)) <==> !Displaces(t, id, cp, ip, port)
  {
    if t.Exhausted(ip, port) && t.portTo < 0xffff && !t.Reusable(id, cp, ip, port) {
      ExhaustionDisplaces(t, id, cp, ip, port);
    } else {
      NothingDisplaced(t, id, cp, ip, port);
    }
  }

  lemma NothingDisplaced(t: Table, id: Word, cp: Word, ip: Address, port: Word)
    requires t.Reusable(id, cp, ip, port) || !t.Exhausted(ip, port) || t.portTo == 0xffff
    ensures KeepsEntries(t, t.AfterCreate(id, cp, ip, port))
  {
    if t.portFrom <= t.portTo {
      ScanIsLeast(t, ip, port, t.portFrom);
    }
  }

  /** Exactly which creations break the agreement of the indexes. */
  lemma CreateConsistent(t: Table, id: Word, cp: Word, ip: Address, port: Word)
    requires t.Consistent()
    ensures t.AfterCreate(id, cp, ip, port).Consistent() <==> !Breaks(t, id, cp, ip, port)
  {
    CreateKeyed(t, id, cp, ip, port);
    CreateDisplaces(t, id, cp, ip, port);
    if Displaces(t, id, cp, ip, port) {
      ExhaustionDisplaces(t, id, cp, ip, port);
      if Breaks(t, id, cp, ip, port) {
        var u, c := t.AfterCreate(id, cp, ip, port), t.FindServer(ip, port, t.portTo).value;
        assert c.ClientSide() in u.clientMap && u.clientMap[c.ClientSide()] == c;
        assert u.serverMap[c.ServerSide()] != c;
      }
    }
  }

  lemma CreateKeyed(t: Table, id: Word, cp: Word, ip: Address, port: Word)
    requires t.Keyed()
    ensures t.AfterCreate(id, cp, ip, port).Keyed()
  {
    AnswersExactly(t, id, cp, ip, port);
  }

  /** On exhaustion of a range that ends before 65535, the connection that holds the last
      port loses its entry, unless it is this client's own; no other does. */
  lemma ExhaustionDisplaces(t: Table, id: Word, cp: Word, ip: Address, port: Word)
    requires t.Keyed() && !t.Reusable(id, cp, ip, port) && t.Exhausted(ip, port) && t.portTo < 0xffff
    ensures var last, u := ServerKey(ip, port, t.portTo), t.AfterCreate(id, cp, ip, port);
            && last in t.serverMap && last in u.serverMap
            && u.serverMap[last].ClientSide() == ClientKey(id, cp)
            && (u.serverMap[last] == t.serverMap[last] <==> t.serverMap[last].ClientSide() == ClientKey(id, cp))
            && forall k :: k in t.serverMap && k != last ==> k in u.serverMap && u.serverMap[k] == t.serverMap[k]
  {
    ScanIsLeast(t, ip, port, t.portFrom);
    assert t.Taken(ip, port, t.portTo);
  }

  /** For instance, with a single port the second client to use it breaks the agreement. */
  lemma BreakingCreation(ip: Address, port: Word)
    ensures var t := Table(100, 100, map[], map[]).AfterCreate(1, 52000, ip, port);
            && t.Consistent() && Breaks(t, 2, 52000, ip, port)
            && !t.AfterCreate(2, 52000, ip, port).Consistent()
  {
    var empty := Table(100, 100, map[], map[]);
    var t := empty.AfterCreate(1, 52000, ip, port);
    assert !empty.Taken(ip, port, 100);
    EmptyConsistent(100, 100);
    CreateConsistent(empty, 1, 52000, ip, port);
    assert t.Taken(ip, port, 100);
    CreateConsistent(t, 2, 52000, ip, port);
  }

  lemma WithoutConsistent(t: Table, keys: set<ClientKey>)
    requires t.Consistent() && keys <= t.clientMap.Keys
    ensures t.Without(keys).Consistent()
    ensures forall s :: s in t.serverMap ==>
              (s in t.Without(keys).serverMap <==>
                 !(t.serverMap[s].ClientSide() in keys && t.clientMap[t.serverMap[s].ClientSide()] == t.serverMap[s]))
  {
    var gone := set k | k in keys :: t.clientMap[k].ServerSide();
    forall s | s in t.serverMap
      ensures s in gone <==>
                t.serverMap[s].ClientSide() in keys && t.clientMap[t.serverMap[s].ClientSide()] == t.serverMap[s]
    {
      if s in gone {
        var k :| k in keys && t.clientMap[k].ServerSide() == s;
        assert t.serverMap[s] == t.clientMap[k];
      }
    }
    forall k | k in t.clientMap && k !in keys ensures t.clientMap[k].ServerSide() !in gone {
    }
  }

  /** Removing a client deletes its connections from both indexes and nothing else,
      exactly when its number fits in 8 bits and it has no port 0 — or the walk finds
      nothing and there was nothing to find. */
  lemma RemovalExact(t: Table, id: Word)
    ensures t.Without(t.Visited(id)) == t.Without(t.KeysOf(id)) <==>
              if id < 0x100 then ClientKey(id, 0) !in t.clientMap
              else t.KeysOf(id) == {} && t.Visited(id) == {}
  {
    var visited, meant := t.Visited(id), t.KeysOf(id);
    if t.Without(visited) == t.Without(meant) {
      SameRemainder(t.clientMap, visited, meant);
    }
    if id < 0x100 {
      assert meant - visited == (if ClientKey(id, 0) in t.clientMap then {ClientKey(id, 0)} else {});
      assert visited <= meant;
      assert visited == meant <==> ClientKey(id, 0) !in t.clientMap;
    } else {
      assert visited * meant == {};
      assert visited == meant ==> visited == {} by {
        if visited == meant { assert visited * meant == visited; }
      }
    }
  }

  lemma SameRemainder<K, V>(m: map<K, V>, a: set<K>, b: set<K>)
    requires a <= m.Keys && b <= m.Keys && m - a == m - b
    ensures a == b
  {
    forall k | k in m ensures k in a <==> k in b {
      assert k in m - a <==> k in m - b;
    }
  }

  // Whole runs

  datatype Op =
    | Create(clientID: Word, clientPort: Word, serverIP: Address, serverPort: Word)
    | Remove(id: Word)

  /** An endless creation changes nothing. */
  function Apply(t: Table, op: Op): Table {
    match op
    case Create(id, cp, ip, port) => t.AfterCreate(id, cp, ip, port)
    case Remove(id) => t.Without(t.Visited(id))
  }

  function Run(t: Table, ops: seq<Op>): Table
    decreases |ops|
  {
    if ops == [] then t else Run(Apply(t, ops[0]), ops[1..])
  }

  lemma ApplyKeyed(t: Table, op: Op)
    requires t.Keyed()
    ensures Apply(t, op).Keyed()
    ensures Apply(t, op).portFrom == t.portFrom && Apply(t, op).portTo == t.portTo
  {
    match op
    case Create(id, cp, ip, port) => CreateKeyed(t, id, cp, ip, port);
    case Remove(id) =>
  }

  /** The indexes agree in every state of the run. */
  ghost predicate AgreeingRun(t: Table, ops: seq<Op>)
    decreases |ops|
  {
    t.Consistent() && (ops != [] ==> AgreeingRun(Apply(t, ops[0]), ops[1..]))
  }

  /** No creation of the run breaks the agreement. */
  predicate BenignRun(t: Table, ops: seq<Op>)
    decreases |ops|
  {
    ops != [] ==>
      && (ops[0].Create? ==> !Breaks(t, ops[0].clientID, ops[0].clientPort, ops[0].serverIP, ops[0].serverPort))
      && BenignRun(Apply(t, ops[0]), ops[1..])
  }

  lemma {:induction false} RunAgrees(t: Table, ops: seq<Op>)
    requires t.Consistent()
    ensures AgreeingRun(t, ops) <==> BenignRun(t, ops)
    decreases |ops|
  {
    if ops != [] {
      match ops[0] {
        case Create(id, cp, ip, port) => CreateConsistent(t, id, cp, ip, port);
        case Remove(id) => WithoutConsistent(t, t.Visited(id));
      }
      if Apply(t, ops[0]).Consistent() {
        RunAgrees(Apply(t, ops[0]), ops[1..]);
      }
    }
  }

  /** From an empty table on, the two indexes agree in every state exactly as long as no
      creation takes the last port of an exhausted range from a connection that its client
      still has. */
  lemma RunConsistent(portFrom: Word, portTo: Word, ops: seq<Op>)
    ensures var t := Table(portFrom, portTo, map[], map[]); AgreeingRun(t, ops) <==> BenignRun(t, ops)
  {
    EmptyConsistent(portFrom, portTo);
    RunAgrees(Table(portFrom, portTo, map[], map[]), ops);
  }

  // Flows

  /** The operation takes the entry `s` out of the server index, or gives it away. */
  ghost predicate Takes(t: Table, op: Op, s: ServerKey) {
    match op
    case Create(id, cp, ip, port) => Displaces(t, id, cp, ip, port) && s == ServerKey(ip, port, t.portTo)
    case Remove(id) => exists k :: k in t.Visited(id) && t.clientMap[k].ServerSide() == s
  }

  lemma TakesExactly(t: Table, op: Op, s: ServerKey)
    requires t.Keyed() && s in t.serverMap
    ensures s in Apply(t, op).serverMap && Apply(t, op).serverMap[s] == t.serverMap[s] <==> !Takes(t, op, s)
  {
    match op
    case Create(id, cp, ip, port) =>
      CreateDisplaces(t, id, cp, ip, port);
      if Displaces(t, id, cp, ip, port) {
        ExhaustionDisplaces(t, id, cp, ip, port);
      }
    case Remove(id) =>
  }

  ghost predicate Maps(t: Table, s: ServerKey, c: Connection) {
    s in t.serverMap && t.serverMap[s] == c
  }

  /** In every state of the run the lookup under `s` finds `c`. */
  ghost predicate FoundThroughout(t: Table, ops: seq<Op>, s: ServerKey, c: Connection)
    decreases |ops|
  {
    Maps(t, s, c) && (ops != [] ==> FoundThroughout(Apply(t, ops[0]), ops[1..], s, c))
  }

  ghost predicate UntakenRun(t: Table, ops: seq<Op>, s: ServerKey)
    decreases |ops|
  {
    ops != [] ==> !Takes(t, ops[0], s) && UntakenRun(Apply(t, ops[0]), ops[1..], s)
  }

  lemma {:induction false} EntryPersists(t: Table, ops: seq<Op>, s: ServerKey)
    requires t.Keyed() && s in t.serverMap
    ensures FoundThroughout(t, ops, s, t.serverMap[s]) <==> UntakenRun(t, ops, s)
    decreases |ops|
  {
    if ops != [] {
      TakesExactly(t, ops[0], s);
      ApplyKeyed(t, ops[0]);
      if !Takes(t, ops[0], s) {
        EntryPersists(Apply(t, ops[0]), ops[1..], s);
      }
    }
  }

  /** Flows never cross: once client (id, cp) has been given a local port towards a server
      endpoint, what comes back from there to that port is looked up as (id, cp) in every
      later state exactly if its entry was not stale and no later operation takes it. */
  lemma FlowsNeverCross(t: Table, id: Word, cp: Word, ip: Address, port: Word, ops: seq<Op>)
    requires t.Keyed() && t.Answers(id, cp, ip, port)
    ensures var c, u := t.Created(id, cp, ip, port), t.AfterCreate(id, cp, ip, port);
            && c.Some? && c.value.ClientSide() == ClientKey(id, cp)
            && c.value.ServerSide() == ServerKey(ip, port, c.value.localPort)
            && (FoundThroughout(u, ops, c.value.ServerSide(), c.value) <==>
                  !Stale(t, id, cp, ip, port) && UntakenRun(u, ops, c.value.ServerSide()))
  {
    CreateAnswers(t, id, cp, ip, port);
    CreateKeyed(t, id, cp, ip, port);
    if !Stale(t, id, cp, ip, port) {
      EntryPersists(t.AfterCreate(id, cp, ip, port), ops, t.Created(id, cp, ip, port).value.ServerSide());
    }
  }

  /** The indexes agree about the connections to one server endpoint. */
  ghost predicate AgreesAt(t: Table, ip: Address, port: Word) {
    forall k :: k in t.clientMap && t.clientMap[k].serverIP == ip && t.clientMap[k].serverPort == port ==>
      Maps(t, t.clientMap[k].ServerSide(), t.clientMap[k])
  }

  /** No creation towards this server endpoint displaces, and no removal reaches client `c`. */
  ghost predicate Quiet(t: Table, op: Op, ip: Address, port: Word, c: Word) {
    match op
    case Create(id, cp, i, p) => i == ip && p == port ==> !Displaces(t, id, cp, i, p)
    case Remove(id) => id % 0x100 != c
  }

  ghost predicate QuietRun(t: Table, ops: seq<Op>, ip: Address, port: Word, c: Word)
    decreases |ops|
  {
    ops != [] ==> Quiet(t, ops[0], ip, port, c) && QuietRun(Apply(t, ops[0]), ops[1..], ip, port, c)
  }

  lemma CreateAgreesAt(t: Table, id: Word, cp: Word, i: Address, p: Word, ip: Address, port: Word)
    requires t.Keyed() && AgreesAt(t, ip, port) && (i == ip && p == port ==> !Breaks(t, id, cp, i, p))
    ensures AgreesAt(t.AfterCreate(id, cp, i, p), ip, port)
  {
    CreateDisplaces(t, id, cp, i, p);
    AnswersExactly(t, id, cp, i, p);
    if Displaces(t, id, cp, i, p) {
      ExhaustionDisplaces(t, id, cp, i, p);
    }
  }

  lemma QuietKeeps(t: Table, op: Op, s: ServerKey)
    requires t.Keyed() && AgreesAt(t, s.serverIP, s.serverPort) && s in t.serverMap
    requires Quiet(t, op, s.serverIP, s.serverPort, t.serverMap[s].clientID)
    ensures !Takes(t, op, s) && AgreesAt(Apply(t, op), s.serverIP, s.serverPort)
  {
    match op
    case Create(id, cp, ip, port) => CreateAgreesAt(t, id, cp, ip, port, s.serverIP, s.serverPort);
    case Remove(id) => RemoveAgreesAt(t, id, s.serverIP, s.serverPort);
  }

  lemma RemoveAgreesAt(t: Table, id: Word, ip: Address, port: Word)
    requires t.Keyed() && AgreesAt(t, ip, port)
    ensures AgreesAt(Apply(t, Remove(id)), ip, port)
  {
  }

  lemma {:induction false} QuietIsUntaken(t: Table, ops: seq<Op>, s: ServerKey)
    requires t.Keyed() && AgreesAt(t, s.serverIP, s.serverPort) && s in t.serverMap
    requires QuietRun(t, ops, s.serverIP, s.serverPort, t.serverMap[s].clientID)
    ensures UntakenRun(t, ops, s)
    decreases |ops|
  {
    if ops != [] {
      QuietKeeps(t, ops[0], s);
      ApplyKeyed(t, ops[0]);
      TakesExactly(t, ops[0], s);
      QuietIsUntaken(Apply(t, ops[0]), ops[1..], s);
    }
  }

  /** So a flow is kept whatever the creations and the removals of other clients, as long as
      the ports towards its own server endpoint do not run out. */
  lemma FlowsKept(t: Table, id: Word, cp: Word, ip: Address, port: Word, ops: seq<Op>)
    requires t.Keyed() && AgreesAt(t, ip, port) && t.Answers(id, cp, ip, port) && !Breaks(t, id, cp, ip, port)
    requires QuietRun(t.AfterCreate(id, cp, ip, port), ops, ip, port, id)
    ensures var c, u := t.Created(id, cp, ip, port), t.AfterCreate(id, cp, ip, port);
            c.Some? && FoundThroughout(u, ops, ServerKey(ip, port, c.value.localPort), c.value)
  {
    CreateAnswers(t, id, cp, ip, port);
    CreateKeyed(t, id, cp, ip, port);
    CreateAgreesAt(t, id, cp, ip, port, ip, port);
    FlowsNeverCross(t, id, cp, ip, port, ops);
    QuietIsUntaken(t.AfterCreate(id, cp, ip, port), ops, t.Created(id, cp, ip, port).value.ServerSide());
  }

  // Connections

  /** A creation repeated is answered alike and changes nothing. */
  lemma CreateTwice(t: Table, id: Word, cp: Word, ip: Address, port: Word)
    requires t.Keyed() && t.Answers(id, cp, ip, port)
    ensures var u := t.AfterCreate(id, cp, ip, port);
            && u.Answers(id, cp, ip, port)
            && u.Created(id, cp, ip, port) == t.Created(id, cp, ip, port) && u.AfterCreate(id, cp, ip, port) == u
  {
    AnswersExactly(t, id, cp, ip, port);
  }

  /** The operation takes client key `k`'s connection out of the client index, or replaces
      it by one to another server endpoint. */
  predicate Drops(t: Table, op: Op, k: ClientKey) {
    match op
    case Create(id, cp, ip, port) =>
      k == ClientKey(id, cp) && !t.Reusable(id, cp, ip, port) && t.Answers(id, cp, ip, port)
    case Remove(id) => k in t.Visited(id)
  }

  /** Exactly which operations take a client's connection; all else in the client index but
      the key of the creation stays. */
  lemma DropsExactly(t: Table, op: Op, k: ClientKey)
    requires t.Keyed()
    ensures var before, after := t.FindClient(k.clientID, k.clientPort), Apply(t, op).FindClient(k.clientID, k.clientPort);
            && (before.Some? ==> (after == before <==> !Drops(t, op, k)))
            && (before.None? ==> (after.Some? <==> Drops(t, op, k)))
  {
    match op
    case Create(id, cp, ip, port) => AnswersExactly(t, id, cp, ip, port);
    case Remove(id) =>
  }

  /** In every state of the run client key `k` has connection `c`. */
  ghost predicate HeldThroughout(t: Table, ops: seq<Op>, k: ClientKey, c: Connection)
    decreases |ops|
  {
    t.FindClient(k.clientID, k.clientPort) == Some(c) && (ops != [] ==> HeldThroughout(Apply(t, ops[0]), ops[1..], k, c))
  }

  predicate UndroppedRun(t: Table, ops: seq<Op>, k: ClientKey)
    decreases |ops|
  {
    ops != [] ==> !Drops(t, ops[0], k) && UndroppedRun(Apply(t, ops[0]), ops[1..], k)
  }

  lemma {:induction false} ConnectionPersists(t: Table, ops: seq<Op>, k: ClientKey)
    requires t.Keyed() && k in t.clientMap
    ensures HeldThroughout(t, ops, k, t.clientMap[k]) <==> UndroppedRun(t, ops, k)
    decreases |ops|
  {
    if ops != [] {
      DropsExactly(t, ops[0], k);
      ApplyKeyed(t, ops[0]);
      if !Drops(t, ops[0], k) {
        ConnectionPersists(Apply(t, ops[0]), ops[1..], k);
      }
    }
  }

  /** A flow keeps its connection: over any run of creations and removals, the connection
      given to (id, cp) stays in the client index exactly as long as no removal visits its key
      and no creation gives the client port to another server endpoint; and as long as it
      does, every further packet of the flow is answered with it and changes nothing. */
  lemma FlowKeepsConnection(t: Table, id: Word, cp: Word, ip: Address, port: Word, ops: seq<Op>)
    requires t.Keyed() && t.Answers(id, cp, ip, port)
    ensures var c, u := t.Created(id, cp, ip, port), t.AfterCreate(id, cp, ip, port);
            && c.Some?
            && (HeldThroughout(u, ops, ClientKey(id, cp), c.value) <==> UndroppedRun(u, ops, ClientKey(id, cp)))
            && (UndroppedRun(u, ops, ClientKey(id, cp)) ==>
                  Run(u, ops).Created(id, cp, ip, port) == c && Run(u, ops).AfterCreate(id, cp, ip, port) == Run(u, ops))
  {
    CreateAnswers(t, id, cp, ip, port);
    CreateKeyed(t, id, cp, ip, port);
    ConnectionPersists(t.AfterCreate(id, cp, ip, port), ops, ClientKey(id, cp));
    if UndroppedRun(t.AfterCreate(id, cp, ip, port), ops, ClientKey(id, cp)) {
      HeldAtEnd(t.AfterCreate(id, cp, ip, port), ops, ClientKey(id, cp), t.Created(id, cp, ip, port).value);
    }
  }

  lemma {:induction false} HeldAtEnd(t: Table, ops: seq<Op>, k: ClientKey, c: Connection)
    requires HeldThroughout(t, ops, k, c)
    ensures Run(t, ops).FindClient(k.clientID, k.clientPort) == Some(c)
    decreases |ops|
  {
    if ops != [] {
      HeldAtEnd(Apply(t, ops[0]), ops[1..], k, c);
    }
  }
}
