/** The tunnel server: clients' packets out, servers' packets back, and the sessions. */
module TunnelServer {
  import opened Bytes
  import opened Options
  import OnesComplement
  import Session
  import Ip4
  import Napt
  import NaptRuns
  import Rewrite

  /** Bytes of a pool buffer after its headroom. */
  const WINDOW := 1600 - 10

  /** Where a packet from the raw socket goes: to a session's endpoint, under the session's
      secret, and there to a port of the client. */
  datatype Route = Route(to: Session.Endpoint, secret: Session.Secret, port: Word)

  /** What is sent to a client: the packet, encrypted under a secret. */
  datatype Delivery = Delivery(to: Session.Endpoint, secret: Session.Secret, packet: seq<Byte>)

  /** The number is that of a connected session of this endpoint. */
  predicate Admitted(sessions: seq<Session.Session>, from: Session.Endpoint, clientId: Word) {
    && clientId < |sessions|
    && sessions[clientId].endpoint == from
    && sessions[clientId].IsConnected()
  }

  /** The checks made before a client's packet `p` is decrypted. */
  predicate TransmitGuard(sessions: seq<Session.Session>, from: Session.Endpoint, clientId: Word, p: seq<Byte>)
    requires |p| >= 20 && (Admitted(sessions, from, clientId) ==> Ip4.HeaderBytes(p) <= |p|)
  {
    Admitted(sessions, from, clientId) && Ip4.HeaderChecksum(p) == Ip4.StoredChecksum(p)
  }

  /** So a packet is accepted exactly from the endpoint of the connected session it names,
      and with a header that sums to 0xffff, where a stored checksum of 0xffff is accepted
      only with all other words zero. */
  lemma AcceptedExactly(sessions: seq<Session.Session>, from: Session.Endpoint, clientId: Word, p: seq<Byte>)
    requires |p| >= 20 && Ip4.HeaderBytes(p) <= |p|
    ensures var ws, i := Ip4.CheckedWords(p, Ip4.HeaderBytes(p)), Ip4.FieldIndex(Ip4.HeaderBytes(p));
            TransmitGuard(sessions, from, clientId, p) <==>
              && clientId < |sessions| && sessions[clientId].endpoint == from && sessions[clientId].status == Session.Connected
              && OnesComplement.Sum(ws) == 0xffff
              && (Load16(p, 10) == 0xffff ==> forall j :: 0 <= j < |ws| && j != i ==> ws[j] == 0)
  {
    Ip4.AcceptedHeaders(p);
  }

  /** Of an accepted packet, a header with one other word overwritten is refused, unless the
      change swaps the two zeros. */
  lemma CorruptedIsRefused(sessions: seq<Session.Session>, from: Session.Endpoint, clientId: Word, p: seq<Byte>, j: nat, w: Word)
    requires |p| >= 20 && Ip4.HeaderBytes(p) <= |p| && TransmitGuard(sessions, from, clientId, p)
    requires 0 < j && 2 * j + 2 <= Ip4.HeaderBytes(p) && j != Ip4.CHECKSUM_WORD && w != Load16(p, 2 * j)
    ensures Ip4.HeaderBytes(Store16(p, 2 * j, w)) == Ip4.HeaderBytes(p)
    ensures TransmitGuard(sessions, from, clientId, Store16(p, 2 * j, w)) <==>
              Ip4.SwapsZeros(p, Ip4.HeaderBytes(p), j, w)
  {
    Ip4.CorruptionDetected(p, j, w);
  }

  /** And so is one with another first word, unless what that changes cancels out. */
  lemma CorruptedLengthIsRefused(sessions: seq<Session.Session>, from: Session.Endpoint, clientId: Word, p: seq<Byte>, w: Word)
    requires |p| >= 20 && Ip4.HeaderBytes(p) <= |p| && TransmitGuard(sessions, from, clientId, p)
    requires Ip4.HeaderBytes(Store16(p, 0, w)) <= |p|
    ensures TransmitGuard(sessions, from, clientId, Store16(p, 0, w)) <==>
              Ip4.CancelsOut(p, 2 * Ip4.HeaderLen(p), 2 * Ip4.HeaderLen(Store16(p, 0, w)), w - Load16(p, 0))
  {
    Ip4.FirstWordChange(p, w);
  }

  function SourcePort(p: seq<Byte>): Word
    requires |p| >= 20 && Ip4.HeaderBytes(p) + 4 <= |p|
  {
    Load16(p, Ip4.HeaderBytes(p))
  }

  function DestPort(p: seq<Byte>): Word
    requires |p| >= 20 && Ip4.HeaderBytes(p) + 4 <= |p|
  {
    Load16(p, Ip4.HeaderBytes(p) + 2)
  }

  /** The ports come right after the header, source first. */
  lemma PortsLayout(header: seq<Byte>, source: Word, dest: Word, rest: seq<Byte>)
    requires |header| >= 20 && Ip4.HeaderBytes(header) == |header|
    ensures var p := header + Big16(source) + Big16(dest) + rest;
            Ip4.HeaderBytes(p) == |header| && SourcePort(p) == source && DestPort(p) == dest
  {
  }

  /** The table has an answer for `p`, whose ports lie in memory. */
  ghost predicate TableReady(t: Napt.Table, clientId: Word, p: seq<Byte>)
    requires |p| >= 20 && Ip4.HeaderBytes(p) + 4 <= |p|
  {
    t.Keyed() && t.Answers(clientId, SourcePort(p), Ip4.DestIP(p), DestPort(p))
  }

  /** An outbound `p` can be translated: its fields lie in memory and its table is ready. */
  ghost predicate Translatable(clientId: Word, p: seq<Byte>, tcp: Napt.Table, udp: Napt.Table)
    requires |p| >= 20
  {
    && (Ip4.Protocol(p) == Ip4.TCP ==> Rewrite.TcpInMemory(p) && TableReady(tcp, clientId, p))
    && (Ip4.Protocol(p) == Ip4.UDP ==> Rewrite.UdpInMemory(p) && TableReady(udp, clientId, p))
  }

  /** The connection's client port is the source port that the packet came with. */
  lemma ConnectionOf(t: Napt.Table, clientId: Word, p: seq<Byte>)
    requires |p| >= 20 && Ip4.HeaderBytes(p) + 4 <= |p| && TableReady(t, clientId, p)
    ensures var c := t.Created(clientId, SourcePort(p), Ip4.DestIP(p), DestPort(p));
            && c.Some? && c.value.clientPort == SourcePort(p)
            && Rewrite.HeaderFits(p, Ip4.HeaderBytes(p), c.value.clientPort)
  {
    NaptRuns.AnswersExactly(t, clientId, SourcePort(p), Ip4.DestIP(p), DestPort(p));
    if Ip4.HeaderBytes(p) == 0 {
      assert SourcePort(p) / 0x100 == p[0];
    }
  }

  datatype Outcome = Outcome(tcp: Napt.Table, udp: Napt.Table, packet: seq<Byte>, forwarded: bool)

  /** What becomes of an outbound `p`: it leaves with the server's address and the
      connection's client port. */
  ghost function Outbound(clientId: Word, p: seq<Byte>, ifAddress: Address, tcp: Napt.Table, udp: Napt.Table): Outcome
    requires |p| >= 20 && Translatable(clientId, p, tcp, udp)
  {
    if Ip4.Protocol(p) == Ip4.TCP then
      ConnectionOf(tcp, clientId, p);
      var c := tcp.Created(clientId, SourcePort(p), Ip4.DestIP(p), DestPort(p)).value;
      Outcome(tcp.AfterCreate(clientId, SourcePort(p), Ip4.DestIP(p), DestPort(p)), udp,
              Rewrite.TcpOutbound(p, ifAddress, c.clientPort), true)
    else if Ip4.Protocol(p) == Ip4.UDP then
      ConnectionOf(udp, clientId, p);
      var c := udp.Created(clientId, SourcePort(p), Ip4.DestIP(p), DestPort(p)).value;
      Outcome(tcp, udp.AfterCreate(clientId, SourcePort(p), Ip4.DestIP(p), DestPort(p)),
              Rewrite.UdpOutbound(p, ifAddress, c.clientPort), true)
    else
      Outcome(tcp, udp, p, false)
  }

  /** TCP and UDP packets are sent on, and no others. */
  lemma ForwardedExactly(clientId: Word, p: seq<Byte>, ifAddress: Address, tcp: Napt.Table, udp: Napt.Table)
    requires |p| >= 20 && Translatable(clientId, p, tcp, udp)
    ensures var o := Outbound(clientId, p, ifAddress, tcp, udp);
            && (o.forwarded <==> p[9] == 6 || p[9] == 17)
            && (!o.forwarded ==> o.tcp == tcp && o.udp == udp && o.packet == p)
            && (p[9] != 6 ==> o.tcp == tcp) && (p[9] != 17 ==> o.udp == udp)
  {
  }

  /** Every connection belongs to a slot of the session table. */
  ghost predicate Known(sessions: seq<Session.Session>, t: Napt.Table) {
    forall s :: s in t.serverMap ==> t.serverMap[s].clientID < |sessions|
  }

  /** Where a packet from `ip`:`port` to local port `local` goes. */
  ghost function Routed(sessions: seq<Session.Session>, t: Napt.Table, ip: Address, port: Word, local: Word): Option<Route>
    requires Known(sessions, t)
  {
    var c := t.FindServer(ip, port, local);
    if c.None? || !sessions[c.value.clientID].IsConnected() then None
    else
      var session := sessions[c.value.clientID];
      Some(Route(session.endpoint, session.secret, c.value.clientPort))
  }

  /** Where a packet from the raw socket goes. */
  ghost function RouteOf(sessions: seq<Session.Session>, tcp: Napt.Table, udp: Napt.Table, p: seq<Byte>): Option<Route>
    requires |p| >= 20 && Ip4.HeaderBytes(p) + 4 <= |p| && Known(sessions, tcp) && Known(sessions, udp)
  {
    if Ip4.Protocol(p) == Ip4.TCP then Routed(sessions, tcp, Ip4.SourceIP(p), SourcePort(p), DestPort(p))
    else if Ip4.Protocol(p) == Ip4.UDP then Routed(sessions, udp, Ip4.SourceIP(p), SourcePort(p), DestPort(p))
    else None
  }

  class TunnelServer {
    const tcpNapt: Napt.Napt
    const udpNapt: Napt.Napt
    const ifAddress: Address
    var sessions: seq<Session.Session>

    /** Every connection belongs to a slot of the table. */
    ghost predicate Valid()
      reads this, tcpNapt, udpNapt
    {
      && tcpNapt != udpNapt && tcpNapt.Valid() && udpNapt.Valid()
      && Known(sessions, tcpNapt.Value()) && Known(sessions, udpNapt.Value())
    }

    constructor (portFrom: Word, portTo: Word, maxSessions: Byte, ifAddress: Address)
      ensures Valid()
      ensures tcpNapt.Value() == udpNapt.Value() == Napt.Table(portFrom, portTo, map[], map[])
      ensures |sessions| == maxSessions && forall s :: s in sessions ==> s == Session.UNUSED
    {
      tcpNapt := new Napt.Napt(portFrom, portTo);
      udpNapt := new Napt.Napt(portFrom, portTo);
      this.ifAddress := ifAddress;
      sessions := seq(maxSessions, _ => Session.UNUSED);
    }

    /** `drawn` is the secret that the random generator yields; the client is told it. */
    method RpcConnectHandler(from: Session.Endpoint, credentials: bool, drawn: Session.Secret)
      returns (answer: Option<Session.Secret>)
      requires Valid() && |sessions| < 0x8000
      modifies this`sessions
      ensures Valid()
      ensures sessions == if credentials then Session.Connect(old(sessions), from, drawn) else old(sessions)
      ensures answer == if credentials then Some(drawn) else None
      ensures credentials ==>
                exists k :: 0 <= k < |sessions| && sessions[k] == Session.Session(from, k, Session.Connected, 0, answer.value)
    {
      Session.ConnectKeepsOthers(sessions, from, drawn);
      if !credentials {
        return None;
      }
      var slot := -1;
      var i := 0;
      while i < |sessions|
        invariant 0 <= i <= |sessions|
        invariant -1 <= slot < i && slot == Session.Slot(sessions, i)
      {
        if sessions[i].IsIdle() {
          slot := i;
        }
        i := i + 1;
      }
      if slot == -1 {
        slot := |sessions|;
        sessions := sessions + [Session.UNUSED];
      }
      sessions := sessions[slot := sessions[slot].Reset(slot, from, drawn)];
      answer := Some(sessions[slot].secret);
    }

    method RpcPingHandler(from: Session.Endpoint) returns (connected: bool)
      requires Valid()
      modifies this`sessions
      ensures Valid()
      ensures connected <==> Session.Find(old(sessions), from, 0) != -1
      ensures sessions == Session.Ping(old(sessions), from)
    {
      var i := FindSession(from);
      if i == -1 {
        return false;
      }
      sessions := sessions[i := sessions[i].UpdateTransmit(0)];
      return true;
    }

    /** Frees the client's slot; its connections stay in the tables. */
    method RpcDisconnectHandler(from: Session.Endpoint) returns (connected: bool)
      requires Valid()
      modifies this`sessions
      ensures Valid()
      ensures connected <==> Session.Find(old(sessions), from, 0) != -1
      ensures sessions == Session.Disconnect(old(sessions), from)
    {
      var i := FindSession(from);
      if i == -1 {
        return false;
      }
      sessions := sessions[i := sessions[i].(status := Session.Idle)];
      return true;
    }

    /** The loop the two handlers share. */
    method FindSession(from: Session.Endpoint) returns (i: int)
      ensures i == Session.Find(sessions, from, 0) && -1 <= i < |sessions|
    {
      i := 0;
      while i < |sessions|
        invariant 0 <= i <= |sessions|
        invariant Session.Find(sessions, from, 0) == Session.Find(sessions, from, i)
      {
        if sessions[i].endpoint == from && sessions[i].IsConnected() {
          return;
        }
        i := i + 1;
      }
      i := -1;
    }

    method RemoveSession(id: Word)
      requires Valid() && id != |sessions|
      modifies this`sessions, tcpNapt, udpNapt
      ensures Valid()
      ensures id > |old(sessions)| ==>
                sessions == old(sessions) && tcpNapt.Value() == old(tcpNapt.Value()) && udpNapt.Value() == old(udpNapt.Value())
      ensures id < |old(sessions)| ==>
                && sessions == old(sessions)[id := old(sessions)[id].(status := Session.Idle)]
                && tcpNapt.Value() == old(tcpNapt.Value().Without(tcpNapt.Value().Visited(id)))
                && udpNapt.Value() == old(udpNapt.Value().Without(udpNapt.Value().Visited(id)))
    {
      if id <= |sessions| {
        sessions := sessions[id := sessions[id].(status := Session.Idle)];
        tcpNapt.RemoveClient(id);
        udpNapt.RemoveClient(id);
      }
    }

    /** A client's packet, received at `mem[at..at + size]` after the command byte: a
        client number, then an encrypted packet whose decryption is `plain`. The header
        check is made before the decryption, as in the code. */
    method ProcessTransmit(mem: array<Byte>, at: nat, size: nat, from: Session.Endpoint, plain: seq<Byte>)
      returns (sent: Option<seq<Byte>>)
      requires Valid()
      requires 2 <= size && at + size <= mem.Length && at + 22 <= mem.Length && |plain| == size - 2
      requires Admitted(sessions, from, Load16(mem[..], at)) ==> Ip4.HeaderBytes(mem[at + 2..]) <= |mem[at + 2..]|
      requires TransmitGuard(sessions, from, Load16(mem[..], at), mem[at + 2..]) ==>
                 Translatable(Load16(mem[..], at), plain + mem[at + size..], tcpNapt.Value(), udpNapt.Value())
      modifies mem, this`sessions, tcpNapt, udpNapt
      ensures Valid()
      ensures var clientId := old(Load16(mem[..], at));
              if !TransmitGuard(old(sessions), from, clientId, old(mem[at + 2..])) then
                && sent == None && mem[..] == old(mem[..]) && sessions == old(sessions)
                && tcpNapt.Value() == old(tcpNapt.Value()) && udpNapt.Value() == old(udpNapt.Value())
              else
                && sessions == old(sessions)[clientId := old(sessions)[clientId].UpdateTransmit(size + 1)]
                && mem[..at + 2] == old(mem[..at + 2])
                && Outcome(tcpNapt.Value(), udpNapt.Value(), mem[at + 2..], sent.Some?) ==
                     Outbound(clientId, plain + old(mem[at + size..]), ifAddress, old(tcpNapt.Value()), old(udpNapt.Value()))
                && (sent.Some? ==> sent.value == mem[at + 2..at + size])
    {
      var clientId := Pair(mem[at], mem[at + 1]);
      var accepted := Guard(mem, at + 2, from, clientId);
      if !accepted {
        return None;
      }

      ghost var p := plain + mem[at + size..];
      Decrypt(mem, at + 2, plain);
      assert mem[at + 2..] == p;
      sessions := sessions[clientId := sessions[clientId].UpdateTransmit(size + 1)];

      var forwarded := Translate(mem, at + 2, clientId);
      sent := if forwarded then Some(mem[at + 2..at + size]) else None;
    }

    method Guard(mem: array<Byte>, at: nat, from: Session.Endpoint, clientId: Word) returns (accepted: bool)
      requires at + 20 <= mem.Length
      requires Admitted(sessions, from, clientId) ==> Ip4.HeaderBytes(mem[at..]) <= |mem[at..]|
      ensures accepted == TransmitGuard(sessions, from, clientId, mem[at..])
    {
      var ip := Ip4.Header(mem, at);
      assert ip.View() == mem[at..];
      if clientId >= |sessions| || sessions[clientId].endpoint != from || !sessions[clientId].IsConnected() {
        return false;
      }
      var computed := ip.CalculateChecksum();
      accepted := computed == ip.Checksum();
    }

    method Translate(mem: array<Byte>, at: nat, clientId: Word) returns (forwarded: bool)
      requires Valid() && at + 20 <= mem.Length && clientId < |sessions|
      requires Translatable(clientId, mem[at..], tcpNapt.Value(), udpNapt.Value())
      modifies mem, tcpNapt, udpNapt
      ensures Valid() && mem[..at] == old(mem[..at])
      ensures Outcome(tcpNapt.Value(), udpNapt.Value(), mem[at..], forwarded) ==
                Outbound(clientId, old(mem[at..]), ifAddress, old(tcpNapt.Value()), old(udpNapt.Value()))
    {
      var ip := Ip4.Header(mem, at);
      assert ip.View() == mem[at..];
      if ip.Protocol() == Ip4.TCP {
        TranslateTcp(mem, at, clientId);
        forwarded := true;
      } else if ip.Protocol() == Ip4.UDP {
        TranslateUdp(mem, at, clientId);
        forwarded := true;
      } else {
        forwarded := false;
      }
    }

    method TranslateTcp(mem: array<Byte>, at: nat, clientId: Word)
      requires at <= mem.Length && Rewrite.TcpInMemory(mem[at..]) && TableReady(tcpNapt.Value(), clientId, mem[at..])
      requires Known(sessions, tcpNapt.Value()) && clientId < |sessions|
      modifies mem, tcpNapt
      ensures tcpNapt.Valid() && Known(sessions, tcpNapt.Value()) && mem[..at] == old(mem[..at])
      ensures var p, t := old(mem[at..]), old(tcpNapt.Value());
              var c := t.Created(clientId, SourcePort(p), Ip4.DestIP(p), DestPort(p));
              && tcpNapt.Value() == t.AfterCreate(clientId, SourcePort(p), Ip4.DestIP(p), DestPort(p))
              && c.Some? && Rewrite.HeaderFits(p, Ip4.HeaderBytes(p), c.value.clientPort)
              && mem[at..] == Rewrite.TcpOutbound(p, ifAddress, c.value.clientPort)
    {
      var ip := Ip4.Header(mem, at);
      ghost var p := ip.View();
      assert p == mem[at..];
      assert ip.DestIP() == Ip4.DestIP(p);
      assert ip.Payload16(0) == SourcePort(p) && ip.Payload16(2) == DestPort(p);
      ConnectionOf(tcpNapt.Value(), clientId, p);
      var conn := tcpNapt.CreateIfNotExist(clientId, ip.Payload16(0), ip.DestIP(), ip.Payload16(2));
      Rewrite.RewriteTcp(mem, at, ifAddress, conn.value.clientPort);
    }

    method TranslateUdp(mem: array<Byte>, at: nat, clientId: Word)
      requires at <= mem.Length && Rewrite.UdpInMemory(mem[at..]) && TableReady(udpNapt.Value(), clientId, mem[at..])
      requires Known(sessions, udpNapt.Value()) && clientId < |sessions|
      modifies mem, udpNapt
      ensures udpNapt.Valid() && Known(sessions, udpNapt.Value()) && mem[..at] == old(mem[..at])
      ensures var p, t := old(mem[at..]), old(udpNapt.Value());
              var c := t.Created(clientId, SourcePort(p), Ip4.DestIP(p), DestPort(p));
              && udpNapt.Value() == t.AfterCreate(clientId, SourcePort(p), Ip4.DestIP(p), DestPort(p))
              && c.Some? && Rewrite.HeaderFits(p, Ip4.HeaderBytes(p), c.value.clientPort)
              && mem[at..] == Rewrite.UdpOutbound(p, ifAddress, c.value.clientPort)
    {
      var ip := Ip4.Header(mem, at);
      ghost var p := ip.View();
      assert p == mem[at..];
      assert ip.DestIP() == Ip4.DestIP(p);
      assert ip.Payload16(0) == SourcePort(p) && ip.Payload16(2) == DestPort(p);
      ConnectionOf(udpNapt.Value(), clientId, p);
      var conn := udpNapt.CreateIfNotExist(clientId, ip.Payload16(0), ip.DestIP(), ip.Payload16(2));
      Rewrite.RewriteUdp(mem, at, ifAddress, conn.value.clientPort);
    }

    /** A packet from the raw socket, at the start of `mem`: only its destination port is
        rewritten before it is encrypted and sent to the client. With the command byte it
        must fit the window of a pool buffer. */
    method RawSocketPacketHandler(mem: array<Byte>, size: nat) returns (d: Option<Delivery>)
      requires Valid() && size <= mem.Length && 1 + size <= WINDOW
      requires 20 <= mem.Length && Ip4.HeaderBytes(mem[..]) + 4 <= mem.Length
      modifies mem
      ensures var p := old(mem[..]);
              var route := RouteOf(sessions, tcpNapt.Value(), udpNapt.Value(), p);
              if route.None? then d == None && mem[..] == p
              else
                && mem[..] == Store16(p, Ip4.HeaderBytes(p) + 2, route.value.port)
                && d == Some(Delivery(route.value.to, route.value.secret, mem[..size]))
    {
      var ip := Ip4.Header(mem, 0);
      assert ip.View() == mem[..];
      var clientId;
      if ip.Protocol() == Ip4.TCP {
        var conn := tcpNapt.Value().FindServer(ip.SourceIP(), ip.Payload16(0), ip.Payload16(2));
        if conn.None? || !sessions[conn.value.clientID].IsConnected() {
          return None;
        }
        clientId := conn.value.clientID;
        ip.SetWord(ip.HeaderBytes() + 2, conn.value.clientPort);
      } else if ip.Protocol() == Ip4.UDP {
        var conn := udpNapt.Value().FindServer(ip.SourceIP(), ip.Payload16(0), ip.Payload16(2));
        if conn.None? || !sessions[conn.value.clientID].IsConnected() {
          return None;
        }
        clientId := conn.value.clientID;
        ip.SetWord(ip.HeaderBytes() + 2, conn.value.clientPort);
      } else {
        return None;
      }
      d := Some(Delivery(sessions[clientId].endpoint, sessions[clientId].secret, mem[..size]));
    }
  }

  /** The cipher's in-place decryption, whose result is given. */
  method Decrypt(mem: array<Byte>, at: nat, plain: seq<Byte>)
    requires at + |plain| <= mem.Length
    modifies mem
    ensures mem[..at] == old(mem[..at])
    ensures mem[at..] == plain + old(mem[at + |plain|..])
  {
    forall i | 0 <= i < |plain| {
      mem[at + i] := plain[i];
    }
  }
}
