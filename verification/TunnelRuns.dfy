/** The server over whole runs: where packets from the outside are delivered while clients
    come, go and transmit. One protocol's table is followed; the other is alike. */
module TunnelRuns {
  import opened Bytes
  import opened Options
  import Ip4
  import Napt
  import NaptRuns
  import Rewrite
  import Session
  import opened TunnelServer

  datatype Server = Server(sessions: seq<Session.Session>, table: Napt.Table)
  {
    ghost predicate Valid() {
      table.Keyed() && Known(sessions, table)
    }

    /** The session checks that precede a translation. */
    predicate Admits(from: Session.Endpoint, id: Word) {
      Admitted(sessions, from, id)
    }

    ghost function RouteTo(ip: Address, port: Word, local: Word): Option<Route>
      requires Valid()
    {
      Routed(sessions, table, ip, port, local)
    }
  }

  /** The server at its start. */
  function Begin(slots: Byte, portFrom: Word, portTo: Word): Server {
    Server(seq(slots, _ => Session.UNUSED), Napt.Table(portFrom, portTo, map[], map[]))
  }

  ghost predicate AtStart(s: Server) {
    exists slots, portFrom, portTo :: s == Begin(slots, portFrom, portTo)
  }

  /** A packet of another protocol is counted, but leaves this table alone. */
  datatype Step =
    | Connect(from: Session.Endpoint, secret: Session.Secret)
    | Ping(from: Session.Endpoint)
    | Disconnect(from: Session.Endpoint)
    | Transmit(from: Session.Endpoint, id: Word, clientPort: Word, ip: Address, port: Word, len: nat)
    | Count(from: Session.Endpoint, id: Word, len: nat)

  /** The slot number fits its 16 bits; for an accepted packet the table has an answer. */
  predicate Enabled(s: Server, step: Step) {
    match step
    case Connect(_, _) => |s.sessions| < 0x8000
    case Ping(_) => true
    case Disconnect(_) => true
    case Transmit(from, id, cp, ip, port, _) => s.Admits(from, id) && s.table.Answers(id, cp, ip, port)
    case Count(from, id, _) => s.Admits(from, id)
  }

  function Next(s: Server, step: Step): Server
    requires Enabled(s, step)
  {
    match step
    case Connect(from, secret) => s.(sessions := Session.Connect(s.sessions, from, secret))
    case Ping(from) => s.(sessions := Session.Ping(s.sessions, from))
    case Disconnect(from) => s.(sessions := Session.Disconnect(s.sessions, from))
    case Transmit(from, id, cp, ip, port, len) =>
      Server(s.sessions[id := s.sessions[id].UpdateTransmit(len)], s.table.AfterCreate(id, cp, ip, port))
    case Count(from, id, len) => s.(sessions := s.sessions[id := s.sessions[id].UpdateTransmit(len)])
  }

  predicate EnabledRun(s: Server, steps: seq<Step>)
    decreases |steps|
  {
    steps != [] ==> Enabled(s, steps[0]) && EnabledRun(Next(s, steps[0]), steps[1..])
  }

  function Run(s: Server, steps: seq<Step>): Server
    requires EnabledRun(s, steps)
    decreases |steps|
  {
    if steps == [] then s else Run(Next(s, steps[0]), steps[1..])
  }

  /** The step that a client's packet `p` is to the table of `protocol`. */
  function PacketStep(from: Session.Endpoint, id: Word, len: nat, p: seq<Byte>, protocol: Byte): Step
    requires |p| >= 20 && (Ip4.Protocol(p) == protocol ==> Ip4.HeaderBytes(p) + 4 <= |p|)
  {
    if Ip4.Protocol(p) == protocol then Transmit(from, id, SourcePort(p), Ip4.DestIP(p), DestPort(p), len)
    else Count(from, id, len)
  }

  /** What `ProcessTransmit` makes of an admitted packet is this step, for either table. */
  lemma OutboundIsStep(sessions: seq<Session.Session>, from: Session.Endpoint, id: Word, len: nat, p: seq<Byte>,
                       ifAddress: Address, tcp: Napt.Table, udp: Napt.Table)
    requires Admitted(sessions, from, id) && |p| >= 20 && Translatable(id, p, tcp, udp)
    ensures var o := Outbound(id, p, ifAddress, tcp, udp);
            var later := sessions[id := sessions[id].UpdateTransmit(len)];
            var t, u := PacketStep(from, id, len, p, Ip4.TCP), PacketStep(from, id, len, p, Ip4.UDP);
            && Enabled(Server(sessions, tcp), t) && Next(Server(sessions, tcp), t) == Server(later, o.tcp)
            && Enabled(Server(sessions, udp), u) && Next(Server(sessions, udp), u) == Server(later, o.udp)
  {
  }

  // What every state keeps

  lemma NextValid(s: Server, step: Step)
    requires s.Valid() && Enabled(s, step)
    ensures Next(s, step).Valid() && |Next(s, step).sessions| >= |s.sessions|
  {
    match step
    case Connect(from, secret) => Session.ConnectKeepsOthers(s.sessions, from, secret);
    case Ping(_) =>
    case Disconnect(from) => Session.DisconnectKeepsOthers(s.sessions, from);
    case Transmit(_, id, cp, ip, port, _) =>
      NaptRuns.CreateKeyed(s.table, id, cp, ip, port);
      NaptRuns.AnswersExactly(s.table, id, cp, ip, port);
    case Count(_, _, _) =>
  }

  /** The indexes agree in every state of the run. */
  ghost predicate AgreeingRun(s: Server, steps: seq<Step>)
    requires EnabledRun(s, steps)
    decreases |steps|
  {
    s.table.Consistent() && (steps != [] ==> AgreeingRun(Next(s, steps[0]), steps[1..]))
  }

  predicate Breaks(s: Server, step: Step) {
    step.Transmit? && NaptRuns.Breaks(s.table, step.id, step.clientPort, step.ip, step.port)
  }

  predicate BenignRun(s: Server, steps: seq<Step>)
    requires EnabledRun(s, steps)
    decreases |steps|
  {
    steps != [] ==> !Breaks(s, steps[0]) && BenignRun(Next(s, steps[0]), steps[1..])
  }

  lemma {:induction false} RunAgrees(s: Server, steps: seq<Step>)
    requires s.table.Consistent() && EnabledRun(s, steps)
    ensures AgreeingRun(s, steps) <==> BenignRun(s, steps)
    decreases |steps|
  {
    if steps != [] {
      if steps[0].Transmit? {
        NaptRuns.CreateConsistent(s.table, steps[0].id, steps[0].clientPort, steps[0].ip, steps[0].port);
      }
      if !Breaks(s, steps[0]) {
        RunAgrees(Next(s, steps[0]), steps[1..]);
      }
    }
  }

  lemma {:induction false} RunKeepsValid(s: Server, steps: seq<Step>)
    requires s.Valid() && EnabledRun(s, steps)
    ensures Run(s, steps).Valid()
    decreases |steps|
  {
    if steps != [] {
      NextValid(s, steps[0]);
      RunKeepsValid(Next(s, steps[0]), steps[1..]);
    }
  }

  /** Every connected slot carries its own number. */
  ghost predicate Numbered(s: Server) {
    forall i :: 0 <= i < |s.sessions| && s.sessions[i].IsConnected() ==> s.sessions[i].clientId == i
  }

  lemma {:induction false} RunKeepsNumbered(s: Server, steps: seq<Step>)
    requires Numbered(s) && EnabledRun(s, steps)
    ensures Numbered(Run(s, steps))
    decreases |steps|
  {
    if steps != [] {
      if steps[0].Connect? {
        Session.ConnectKeepsOthers(s.sessions, steps[0].from, steps[0].secret);
      }
      RunKeepsNumbered(Next(s, steps[0]), steps[1..]);
    }
  }

  /** In every state from the start on, connected slots carry their own numbers, and
      connections lie under their own keys, with local ports in the range, and belong to
      slots. The two indexes agree in every state exactly
      as long as no packet takes the last port of an exhausted range from a connection that
      its client still has. */
  lemma RunValid(start: Server, steps: seq<Step>)
    requires AtStart(start) && EnabledRun(start, steps)
    ensures Run(start, steps).Valid() && Numbered(Run(start, steps))
    ensures AgreeingRun(start, steps) <==> BenignRun(start, steps)
  {
    RunKeepsValid(start, steps);
    RunKeepsNumbered(start, steps);
    RunAgrees(start, steps);
  }

  // Byte counts

  /** The bytes that the run counts for slot `id`. */
  function CountedBytes(steps: seq<Step>, id: Word): nat
    decreases |steps|
  {
    if steps == [] then 0
    else
      (if steps[0].Transmit? && steps[0].id == id then steps[0].len
       else if steps[0].Count? && steps[0].id == id then steps[0].len else 0) + CountedBytes(steps[1..], id)
  }

  /** No disconnection of the run frees slot `id`. */
  predicate KeepsSlot(s: Server, steps: seq<Step>, id: Word)
    requires EnabledRun(s, steps)
    decreases |steps|
  {
    steps != [] ==>
      && (steps[0].Disconnect? ==> Session.Find(s.sessions, steps[0].from, 0) != id)
      && KeepsSlot(Next(s, steps[0]), steps[1..], id)
  }

  lemma NextCounts(s: Server, step: Step, id: Word)
    requires Enabled(s, step) && id < |s.sessions| && s.sessions[id].IsConnected()
    requires step.Disconnect? ==> Session.Find(s.sessions, step.from, 0) != id
    ensures id < |Next(s, step).sessions| && Next(s, step).sessions[id].IsConnected()
    ensures var before, after := s.sessions[id].transmittedBytes, Next(s, step).sessions[id].transmittedBytes;
            after % 0x1_0000_0000_0000_0000 == (before + CountedBytes([step], id)) % 0x1_0000_0000_0000_0000
  {
    assert [step][1..] == [] && CountedBytes([], id) == 0;
    if step.Connect? {
      Session.ConnectKeepsOthers(s.sessions, step.from, step.secret);
    }
  }

  /** While a client is connected, its 64-bit counter counts the bytes of its packets. */
  lemma {:induction false} BytesAreCounted(s: Server, steps: seq<Step>, id: Word)
    requires EnabledRun(s, steps) && KeepsSlot(s, steps, id) && id < |s.sessions| && s.sessions[id].IsConnected()
    ensures id < |Run(s, steps).sessions| && Run(s, steps).sessions[id].IsConnected()
    ensures Run(s, steps).sessions[id].transmittedBytes % 0x1_0000_0000_0000_0000 ==
              (s.sessions[id].transmittedBytes + CountedBytes(steps, id)) % 0x1_0000_0000_0000_0000
    decreases |steps|
  {
    if steps != [] {
      NextCounts(s, steps[0], id);
      BytesAreCounted(Next(s, steps[0]), steps[1..], id);
      SplitCount(steps, id);
      SumModulo(Next(s, steps[0]).sessions[id].transmittedBytes,
                s.sessions[id].transmittedBytes + CountedBytes([steps[0]], id), CountedBytes(steps[1..], id));
    }
  }

  lemma SplitCount(steps: seq<Step>, id: Word)
    requires steps != []
    ensures CountedBytes(steps, id) == CountedBytes([steps[0]], id) + CountedBytes(steps[1..], id)
  {
    assert [steps[0]][1..] == [] && CountedBytes([], id) == 0;
  }

  lemma SumModulo(x: nat, z: nat, b: nat)
    requires x % 0x1_0000_0000_0000_0000 == z % 0x1_0000_0000_0000_0000
    ensures (x + b) % 0x1_0000_0000_0000_0000 == (z + b) % 0x1_0000_0000_0000_0000
  {
  }

  // Flows

  /** Connection `c` has its entry, and what comes back on it is delivered to endpoint `e`,
      under this secret and to the client's own port. */
  ghost predicate Delivers(s: Server, c: Napt.Connection, e: Session.Endpoint, secret: Session.Secret) {
    && s.Valid() && NaptRuns.Maps(s.table, c.ServerSide(), c)
    && s.RouteTo(c.serverIP, c.serverPort, c.localPort) == Some(Route(e, secret, c.clientPort))
  }

  /** The step gives the connection's entry to another client, or frees its slot. */
  ghost predicate Ends(s: Server, step: Step, c: Napt.Connection) {
    match step
    case Transmit(_, id, cp, ip, port, _) => NaptRuns.Takes(s.table, NaptRuns.Create(id, cp, ip, port), c.ServerSide())
    case Disconnect(from) => Session.Find(s.sessions, from, 0) == c.clientID
    case _ => false
  }

  lemma NextDelivers(s: Server, step: Step, c: Napt.Connection, e: Session.Endpoint, secret: Session.Secret)
    requires Delivers(s, c, e, secret) && Enabled(s, step)
    ensures Delivers(Next(s, step), c, e, secret) <==> !Ends(s, step, c)
  {
    NextValid(s, step);
    match step
    case Connect(from, drawn) => Session.ConnectKeepsOthers(s.sessions, from, drawn);
    case Ping(_) =>
    case Disconnect(_) =>
    case Transmit(_, id, cp, ip, port, _) =>
      NaptRuns.TakesExactly(s.table, NaptRuns.Create(id, cp, ip, port), c.ServerSide());
    case Count(_, _, _) =>
  }

  ghost predicate DeliversThroughout(s: Server, steps: seq<Step>, c: Napt.Connection, e: Session.Endpoint, secret: Session.Secret)
    requires EnabledRun(s, steps)
    decreases |steps|
  {
    Delivers(s, c, e, secret) && (steps != [] ==> DeliversThroughout(Next(s, steps[0]), steps[1..], c, e, secret))
  }

  ghost predicate UnendedRun(s: Server, steps: seq<Step>, c: Napt.Connection)
    requires EnabledRun(s, steps)
    decreases |steps|
  {
    steps != [] ==> !Ends(s, steps[0], c) && UnendedRun(Next(s, steps[0]), steps[1..], c)
  }

  lemma {:induction false} RunDelivers(s: Server, steps: seq<Step>, c: Napt.Connection, e: Session.Endpoint, secret: Session.Secret)
    requires Delivers(s, c, e, secret) && EnabledRun(s, steps)
    ensures DeliversThroughout(s, steps, c, e, secret) <==> UnendedRun(s, steps, c)
    decreases |steps|
  {
    if steps != [] {
      NextDelivers(s, steps[0], c, e, secret);
      if !Ends(s, steps[0], c) {
        RunDelivers(Next(s, steps[0]), steps[1..], c, e, secret);
      }
    }
  }

  lemma OpenedFlow(s: Server, e: Session.Endpoint, id: Word, cp: Word, ip: Address, port: Word, len: nat)
    requires s.Valid() && Enabled(s, Transmit(e, id, cp, ip, port, len))
    ensures var c := s.table.Created(id, cp, ip, port);
            && c.Some?
            && (Delivers(Next(s, Transmit(e, id, cp, ip, port, len)), c.value, e, s.sessions[id].secret) <==>
                  !NaptRuns.Stale(s.table, id, cp, ip, port))
  {
    NaptRuns.CreateAnswers(s.table, id, cp, ip, port);
    NextValid(s, Transmit(e, id, cp, ip, port, len));
  }

  /** In a server that has run for some time, a client at endpoint `e` sends a packet. In
      every later state what comes back to its local port is delivered to `e`, under the
      client's secret and to the client's own port, exactly if its entry was not stale, no
      packet takes it, and no disconnection frees the client's slot. */
  lemma FlowsReturnToOpener(start: Server, before: seq<Step>, e: Session.Endpoint, id: Word, cp: Word, ip: Address, port: Word,
                            len: nat, steps: seq<Step>)
    requires AtStart(start)
    requires EnabledRun(start, before) && Enabled(Run(start, before), Transmit(e, id, cp, ip, port, len))
    requires EnabledRun(Next(Run(start, before), Transmit(e, id, cp, ip, port, len)), steps)
    ensures var s := Run(start, before);
            var later, c := Next(s, Transmit(e, id, cp, ip, port, len)), s.table.Created(id, cp, ip, port);
            && c.Some?
            && (DeliversThroughout(later, steps, c.value, e, s.sessions[id].secret) <==>
                  !NaptRuns.Stale(s.table, id, cp, ip, port) && UnendedRun(later, steps, c.value))
  {
    var s := Run(start, before);
    RunKeepsValid(start, before);
    OpenedFlow(s, e, id, cp, ip, port, len);
    if !NaptRuns.Stale(s.table, id, cp, ip, port) {
      RunDelivers(Next(s, Transmit(e, id, cp, ip, port, len)), steps, s.table.Created(id, cp, ip, port).value, e,
                  s.sessions[id].secret);
    }
  }

  /** No packet to this server endpoint displaces a connection. */
  predicate QuietStep(s: Server, step: Step, ip: Address, port: Word) {
    step.Transmit? && step.ip == ip && step.port == port ==> !NaptRuns.Displaces(s.table, step.id, step.clientPort, ip, port)
  }

  predicate QuietRun(s: Server, steps: seq<Step>, ip: Address, port: Word)
    requires EnabledRun(s, steps)
    decreases |steps|
  {
    steps != [] ==> QuietStep(s, steps[0], ip, port) && QuietRun(Next(s, steps[0]), steps[1..], ip, port)
  }

  lemma {:induction false} QuietAgrees(s: Server, steps: seq<Step>, ip: Address, port: Word)
    requires s.Valid() && EnabledRun(s, steps) && QuietRun(s, steps, ip, port) && NaptRuns.AgreesAt(s.table, ip, port)
    ensures NaptRuns.AgreesAt(Run(s, steps).table, ip, port)
    decreases |steps|
  {
    if steps != [] {
      NextValid(s, steps[0]);
      if steps[0].Transmit? {
        NaptRuns.CreateAgreesAt(s.table, steps[0].id, steps[0].clientPort, steps[0].ip, steps[0].port, ip, port);
      }
      QuietAgrees(Next(s, steps[0]), steps[1..], ip, port);
    }
  }

  lemma {:induction false} QuietIsUnended(s: Server, steps: seq<Step>, c: Napt.Connection, e: Session.Endpoint, secret: Session.Secret)
    requires Delivers(s, c, e, secret) && EnabledRun(s, steps)
    requires QuietRun(s, steps, c.serverIP, c.serverPort) && Disconnect(e) !in steps
    ensures UnendedRun(s, steps, c)
    decreases |steps|
  {
    if steps != [] {
      if steps[0].Disconnect? {
        Session.FindIsFirst(s.sessions, steps[0].from, 0);
      }
      NextDelivers(s, steps[0], c, e, secret);
      QuietIsUnended(Next(s, steps[0]), steps[1..], c, e, secret);
    }
  }

  /** So a flow returns to its opener whatever any client does, until `e` disconnects, as
      long as the ports towards the flow's own server endpoint do not run out. */
  lemma FlowsKept(start: Server, before: seq<Step>, e: Session.Endpoint, id: Word, cp: Word, ip: Address, port: Word,
                  len: nat, steps: seq<Step>)
    requires AtStart(start) && EnabledRun(start, before) && QuietRun(start, before, ip, port)
    requires var s, step := Run(start, before), Transmit(e, id, cp, ip, port, len);
             Enabled(s, step) && EnabledRun(Next(s, step), steps) && QuietRun(Next(s, step), steps, ip, port)
    requires Disconnect(e) !in steps
    ensures var s := Run(start, before);
            var c := s.table.Created(id, cp, ip, port);
            c.Some? && DeliversThroughout(Next(s, Transmit(e, id, cp, ip, port, len)), steps, c.value, e, s.sessions[id].secret)
  {
    var s := Run(start, before);
    RunKeepsValid(start, before);
    QuietAgrees(start, before, ip, port);
    FlowsReturnToOpener(start, before, e, id, cp, ip, port, len, steps);
    OpenedFlow(s, e, id, cp, ip, port, len);
    NaptRuns.CreateAnswers(s.table, id, cp, ip, port);
    QuietIsUnended(Next(s, Transmit(e, id, cp, ip, port, len)), steps, s.table.Created(id, cp, ip, port).value, e, s.sessions[id].secret);
  }

  /** Disconnecting leaves the flows in the table: they go nowhere until a new client gets
      the slot, and then they go to that client. It gets the slot exactly when no later
      slot is idle. */
  lemma ReusedSlotInheritsFlows(s: Server, e: Session.Endpoint, f: Session.Endpoint, secret: Session.Secret, k: Napt.ServerKey)
    requires s.Valid() && k in s.table.serverMap
    requires Session.Find(s.sessions, e, 0) == s.table.serverMap[k].clientID && |s.sessions| < 0x8000
    ensures var gone := Next(s, Disconnect(e));
            var back := Next(gone, Connect(f, secret));
            var c := s.table.serverMap[k];
            && gone.Valid() && back.Valid()
            && gone.RouteTo(k.serverIP, k.serverPort, k.localPort) == None
            && back.RouteTo(k.serverIP, k.serverPort, k.localPort) ==
                 if exists j :: c.clientID < j < |s.sessions| && s.sessions[j].IsIdle() then None
                 else Some(Route(f, secret, c.clientPort))
  {
    var gone := Next(s, Disconnect(e));
    NextValid(s, Disconnect(e));
    NextValid(gone, Connect(f, secret));
    Session.FindIsFirst(s.sessions, e, 0);
    Session.SlotIsLastIdle(gone.sessions, |gone.sessions|);
    var id := s.table.serverMap[k].clientID;
    assert gone.sessions == s.sessions[id := s.sessions[id].(status := Session.Idle)];
    var slot := Session.Slot(gone.sessions, |gone.sessions|);
    assert gone.sessions[id].IsIdle() && slot >= id;
    if j :| id < j < |s.sessions| && s.sessions[j].IsIdle() {
      assert gone.sessions[j].IsIdle() && slot >= j;
    } else {
      assert forall j :: id < j < |gone.sessions| ==> !gone.sessions[j].IsIdle();
    }
  }

  // The port that outbound packets carry

  /** A packet that is translated, with a full header. */
  ghost predicate Translated(id: Word, p: seq<Byte>, tcp: Napt.Table, udp: Napt.Table) {
    && |p| >= 20 && Translatable(id, p, tcp, udp)
    && ((Ip4.Protocol(p) == Ip4.TCP && Rewrite.TcpPacket(p)) || (Ip4.Protocol(p) == Ip4.UDP && Rewrite.UdpPacket(p)))
  }

  /** The code stores the connection's client port, which is the source port the packet
      came with: the packet leaves under its own port and not under the local port. */
  lemma OutboundKeepsSourcePort(p: seq<Byte>, id: Word, ifAddress: Address, tcp: Napt.Table, udp: Napt.Table)
    requires Translated(id, p, tcp, udp)
    ensures KeepsEnds(p, Outbound(id, p, ifAddress, tcp, udp).packet, ifAddress)
  {
    if Ip4.Protocol(p) == Ip4.TCP {
      ConnectionOf(tcp, id, p);
      TcpKeepsEnds(p, ifAddress);
    } else {
      ConnectionOf(udp, id, p);
      UdpKeepsEnds(p, ifAddress);
    }
  }

  ghost predicate KeepsEnds(p: seq<Byte>, q: seq<Byte>, source: Address)
    requires |p| >= 20 && Ip4.HeaderBytes(p) + 4 <= |p|
  {
    && Rewrite.SameLayout(p, q) && Ip4.SourceIP(q) == source && Ip4.DestIP(q) == Ip4.DestIP(p)
    && SourcePort(q) == SourcePort(p) && DestPort(q) == DestPort(p)
  }

  lemma TcpKeepsEnds(p: seq<Byte>, source: Address)
    requires Rewrite.TcpPacket(p) && Ip4.Protocol(p) == Ip4.TCP
    ensures KeepsEnds(p, Rewrite.TcpOutbound(p, source, SourcePort(p)), source)
  {
    Rewrite.TcpOutboundCorrect(p, source, SourcePort(p));
    SameEnds(p, Rewrite.TcpOutbound(p, source, SourcePort(p)), 16);
  }

  lemma UdpKeepsEnds(p: seq<Byte>, source: Address)
    requires Rewrite.UdpPacket(p)
    ensures KeepsEnds(p, Rewrite.UdpOutbound(p, source, SourcePort(p)), source)
  {
    Rewrite.UdpOutboundCorrect(p, source, SourcePort(p));
    SameEnds(p, Rewrite.UdpOutbound(p, source, SourcePort(p)), 6);
  }

  lemma SameEnds(p: seq<Byte>, q: seq<Byte>, c: nat)
    requires Rewrite.SameLayout(p, q) && 20 <= Ip4.HeaderBytes(p) && Ip4.HeaderBytes(p) + 4 <= |p| && c >= 4
    requires forall i :: 0 <= i < |p| && !Rewrite.Edited(Ip4.HeaderBytes(p), c, i) ==> q[i] == p[i]
    requires q[Ip4.HeaderBytes(p)..Ip4.HeaderBytes(p) + 2] == Big16(SourcePort(p))
    ensures Ip4.DestIP(q) == Ip4.DestIP(p) && SourcePort(q) == SourcePort(p) && DestPort(q) == DestPort(p)
  {
    var t := Ip4.HeaderBytes(p);
    assert q[t..t + 2][0] == q[t] && q[t..t + 2][1] == q[t + 1];
  }

  /** The local port that the new connection gets is the client's own: all ports of the
      range before it are taken, and it is free or is the last. */
  predicate GetsOwnPort(t: Napt.Table, id: Word, cp: Word, ip: Address, port: Word) {
    && !t.Reusable(id, cp, ip, port)
    && t.portFrom <= cp <= t.portTo
    && (forall q: Word | t.portFrom <= q < cp :: t.Taken(ip, port, q))
    && (!t.Taken(ip, port, cp) || cp == t.portTo)
  }

  predicate Holds(c: Option<Napt.Connection>, k: Napt.ClientKey) {
    c.Some? && c.value.ClientSide() == k
  }

  /** So a reply comes back to the client's own port. It finds the client exactly when the
      client gets that port from the scan, or holds it already; it finds another client
      exactly when that other holds the port, and no connection exactly when nobody does. */
  lemma ReplyLookup(t: Napt.Table, id: Word, cp: Word, ip: Address, port: Word)
    requires t.Keyed() && t.Answers(id, cp, ip, port)
    ensures var before, reply := t.FindServer(ip, port, cp), t.AfterCreate(id, cp, ip, port).FindServer(ip, port, cp);
            var own, gets := Napt.ClientKey(id, cp), GetsOwnPort(t, id, cp, ip, port);
            && (Holds(reply, own) <==> gets || Holds(before, own))
            && (reply.Some? && !Holds(reply, own) <==> !gets && before.Some? && !Holds(before, own))
            && (reply.None? <==> !gets && before.None?)
            && (!gets ==> reply == before)
  {
    NaptRuns.AnswersExactly(t, id, cp, ip, port);
    if !t.Reusable(id, cp, ip, port) {
      OwnPort(t, id, cp, ip, port);
    }
  }

  lemma OwnPort(t: Napt.Table, id: Word, cp: Word, ip: Address, port: Word)
    requires t.Answers(id, cp, ip, port) && !t.Reusable(id, cp, ip, port)
    ensures t.ScanFrom(ip, port, t.portFrom) == cp <==> GetsOwnPort(t, id, cp, ip, port)
  {
    NaptRuns.ScanIsLeast(t, ip, port, t.portFrom);
    if t.Exhausted(ip, port) {
      assert t.Taken(ip, port, t.portTo);
    } else {
      assert exists q: Word :: t.portFrom <= q <= t.portTo && !t.Taken(ip, port, q);
    }
  }

  /** `r` answers `q`, as the server at the other end sends it. */
  predicate IsReply(r: seq<Byte>, q: seq<Byte>) {
    && |q| >= 20 && Ip4.HeaderBytes(q) + 4 <= |q|
    && |r| >= 20 && Ip4.HeaderBytes(r) + 4 <= |r|
    && Ip4.Protocol(r) == Ip4.Protocol(q)
    && Ip4.SourceIP(r) == Ip4.DestIP(q) && SourcePort(r) == DestPort(q) && DestPort(r) == SourcePort(q)
  }

  /** Where the reply to a client's packet is delivered, told from the state before the
      packet: to the client itself exactly when it gets or holds its own port as local
      port; else to the connected client that holds that port, if there is one. */
  ghost function ReplyRoute(sessions: seq<Session.Session>, t: Napt.Table, id: Word, cp: Word, ip: Address, port: Word): Option<Route>
    requires Known(sessions, t) && id < |sessions|
  {
    var before := t.FindServer(ip, port, cp);
    if GetsOwnPort(t, id, cp, ip, port) || Holds(before, Napt.ClientKey(id, cp)) then
      Some(Route(sessions[id].endpoint, sessions[id].secret, cp))
    else if before.Some? && sessions[before.value.clientID].IsConnected() then
      var other := sessions[before.value.clientID];
      Some(Route(other.endpoint, other.secret, before.value.clientPort))
    else
      None
  }

  lemma ReplyDelivered(sessions: seq<Session.Session>, from: Session.Endpoint, id: Word, len: nat, p: seq<Byte>, r: seq<Byte>,
                       ifAddress: Address, tcp: Napt.Table, udp: Napt.Table)
    requires Translated(id, p, tcp, udp) && Admitted(sessions, from, id)
    requires Known(sessions, tcp) && Known(sessions, udp)
    ensures var o := Outbound(id, p, ifAddress, tcp, udp);
            var later := sessions[id := sessions[id].UpdateTransmit(len)];
            && Known(later, o.tcp) && Known(later, o.udp)
            && (IsReply(r, o.packet) ==>
                  RouteOf(later, o.tcp, o.udp, r) ==
                    ReplyRoute(sessions, if Ip4.Protocol(p) == Ip4.TCP then tcp else udp,
                               id, SourcePort(p), Ip4.DestIP(p), DestPort(p)))
  {
    OutboundKeepsSourcePort(p, id, ifAddress, tcp, udp);
    var t := if Ip4.Protocol(p) == Ip4.TCP then tcp else udp;
    ReplyRouted(sessions, t, id, len, SourcePort(p), Ip4.DestIP(p), DestPort(p));
  }

  lemma ReplyRouted(sessions: seq<Session.Session>, t: Napt.Table, id: Word, len: nat, cp: Word, ip: Address, port: Word)
    requires t.Keyed() && Known(sessions, t) && t.Answers(id, cp, ip, port)
    requires id < |sessions| && sessions[id].IsConnected()
    ensures var later, u := sessions[id := sessions[id].UpdateTransmit(len)], t.AfterCreate(id, cp, ip, port);
            Known(later, t) && Known(later, u) && Routed(later, u, ip, port, cp) == ReplyRoute(sessions, t, id, cp, ip, port)
  {
    ReplyLookup(t, id, cp, ip, port);
    NaptRuns.AnswersExactly(t, id, cp, ip, port);
  }

  /** For instance, in an empty table over ports 100 to 200, a flow from client port 52000
      gets local port 100, leaves under port 52000, and its replies find no connection. */
  lemma ReplyLost(ip: Address)
    ensures var t := Napt.Table(100, 200, map[], map[]);
            && t.Consistent()
            && t.Created(5, 52000, ip, 443).Some?
            && t.Created(5, 52000, ip, 443).value.localPort == 100
            && t.AfterCreate(5, 52000, ip, 443).FindServer(ip, 443, 52000) == None
            && t.AfterCreate(5, 52000, ip, 443).FindServer(ip, 443, 100).Some?
  {
    assert !Napt.Table(100, 200, map[], map[]).Taken(ip, 443, 100);
  }

  /** And when then another client opens a flow from its own port 100, its replies find the
      first client. */
  lemma ReplyMisdelivered(ip: Address)
    ensures var t := Napt.Table(100, 200, map[], map[]).AfterCreate(1, 52000, ip, 443);
            && t.Consistent() && t.Answers(2, 100, ip, 443)
            && t.Created(2, 100, ip, 443).Some? && t.Created(2, 100, ip, 443).value.localPort == 101
            && Holds(t.AfterCreate(2, 100, ip, 443).FindServer(ip, 443, 100), Napt.ClientKey(1, 52000))
  {
    var empty := Napt.Table(100, 200, map[], map[]);
    NaptRuns.EmptyConsistent(100, 200);
    assert !empty.Taken(ip, 443, 100);
    var t := empty.AfterCreate(1, 52000, ip, 443);
    NaptRuns.CreateConsistent(empty, 1, 52000, ip, 443);
    assert t.serverMap.Keys == {Napt.ServerKey(ip, 443, 100)};
    assert t.Taken(ip, 443, 100) && !t.Taken(ip, 443, 101);
    assert t.ScanFrom(ip, 443, 100) == t.ScanFrom(ip, 443, 101) == 101;
  }
}
