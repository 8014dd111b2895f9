/** What is delivered takes effect: a call's packet goes out, its delivery makes the handler
    run and the reply go out, and the reply's delivery answers the call. */
module Exchange {
  import opened Bytes
  import opened Options
  import opened Session
  import Frame
  import RpcRuns
  import opened RpcSteps
  import RpcEffects
  import opened Network
  import opened Genuine

  /** The endpoint's retry count lets it send at all. */
  predicate Sends(n: Net, e: Endpoint) {
    e in n.nodes && RpcEffects.GoesOn(ToInt8(n.nodes[e].retry))
  }

  lemma CallGoesOut(n: Net, c: Frame.Cipher, at: Endpoint, to: Endpoint, buf: Buf)
    requires Valid(n) && Sends(n, at) && buf.prefix >= 3
    ensures var t := Next(n, c, Send(at, to, buf));
            var x := Call(at, n.nodes[at].nextId, to, buf.bytes, n.now);
            && x in t.calls && Packet(at, to, CallFrame(c, x), n.now) in t.packets
            && x.id in t.nodes[at].requesting
            && t.nodes == n.nodes[at := t.nodes[at]] && t.nodes[at].replying == n.nodes[at].replying
            && t.nodes[at].retry == n.nodes[at].retry
  {
    RpcEffects.SendGoesOut(n.nodes[at], c, to, buf);
  }

  /** The delivery of call `x`'s packet to a server without a reply entry for it, whose
      handler accepts. */
  lemma CallIsHandled(n: Net, c: Frame.Cipher, x: Call, sentAt: nat, reply: Buf)
    requires Valid(n) && Sends(n, x.server) && Packet(x.client, x.server, CallFrame(c, x), sentAt) in n.packets
    requires Key(x.client, x.id) !in n.nodes[x.server].replying && reply.prefix >= 3
    ensures var t := Next(n, c, Deliver(Packet(x.client, x.server, CallFrame(c, x), sentAt), Some(reply)));
            var h := Handling(x.server, x.client, x.id, x.content, reply.bytes);
            && h in t.handlings && Packet(x.server, x.client, ReplyFrame(c, h), n.now) in t.packets
            && Key(x.client, x.id) in t.nodes[x.server].replying
            && t.nodes == n.nodes[x.server := t.nodes[x.server]]
            && t.nodes[x.server].requesting == n.nodes[x.server].requesting
  {
    RpcEffects.RequestIsHandled(n.nodes[x.server], c, x.client, x.id, x.content, Some(reply));
    Frame.RoundTrip(c, Frame.Message(Frame.REQUEST, x.id, x.content));
  }

  /** The delivery of a reply to a client that has the request in its table. */
  lemma ReplyIsAnswered(n: Net, c: Frame.Cipher, h: Handling, sentAt: nat, handler: Option<Buf>)
    requires Valid(n) && h.client in n.nodes && Packet(h.server, h.client, ReplyFrame(c, h), sentAt) in n.packets
    requires h.id in n.nodes[h.client].requesting
    ensures var t := Next(n, c, Deliver(Packet(h.server, h.client, ReplyFrame(c, h), sentAt), handler));
            t.answers == n.answers + {Answer(h.client, h.id, h.reply)}
  {
    RpcEffects.ReplyIsAnswer(n.nodes[h.client], c, h.server, h.id, h.reply, handler);
  }

  /** So a call whose packet is delivered, and whose reply is, is answered with what the
      handler replied. */
  lemma CallIsAnswered(n: Net, c: Frame.Cipher, at: Endpoint, to: Endpoint, buf: Buf, reply: Buf)
    requires Valid(n) && Sends(n, at) && Sends(n, to) && buf.prefix >= 3 && reply.prefix >= 3
    requires Key(at, n.nodes[at].nextId) !in n.nodes[to].replying
    ensures var x := Call(at, n.nodes[at].nextId, to, buf.bytes, n.now);
            var h := Handling(to, at, x.id, x.content, reply.bytes);
            var request, answer := Packet(at, to, CallFrame(c, x), n.now), Packet(to, at, ReplyFrame(c, h), n.now);
            var steps := [Send(at, to, buf)] + ([Deliver(request, Some(reply))] + [Deliver(answer, None)]);
            EnabledRun(n, c, steps) && Answer(at, x.id, reply.bytes) in Run(n, c, steps).answers
  {
    var x := Call(at, n.nodes[at].nextId, to, buf.bytes, n.now);
    var h := Handling(to, at, x.id, x.content, reply.bytes);
    var request, answer := Packet(at, to, CallFrame(c, x), n.now), Packet(to, at, ReplyFrame(c, h), n.now);
    var sent := Next(n, c, Send(at, to, buf));
    CallGoesOut(n, c, at, to, buf);
    var handled := Next(sent, c, Deliver(request, Some(reply)));
    CallIsHandled(sent, c, x, n.now, reply);
    ReplyIsAnswered(handled, c, h, n.now, None);
    LastStep(handled, c, Deliver(answer, None));
    FirstStep(sent, c, Deliver(request, Some(reply)), [Deliver(answer, None)]);
    FirstStep(n, c, Send(at, to, buf), [Deliver(request, Some(reply))] + [Deliver(answer, None)]);
  }

  lemma LastStep(n: Net, c: Frame.Cipher, d: Step)
    requires Valid(n) && Enabled(n, d)
    ensures EnabledRun(n, c, [d]) && Run(n, c, [d]) == Next(n, c, d)
  {
    FirstStep(n, c, d, []);
    assert [d] + [] == [d];
  }

  lemma FirstStep(n: Net, c: Frame.Cipher, step: Step, rest: seq<Step>)
    requires Valid(n) && Enabled(n, step) && EnabledRun(Next(n, c, step), c, rest)
    ensures EnabledRun(n, c, [step] + rest) && Run(n, c, [step] + rest) == Run(Next(n, c, step), c, rest)
  {
    assert ([step] + rest)[1..] == rest;
  }

  /** The count of handler runs is that of the endpoints' own effects. */
  lemma HandledIsCounted(n: Net, c: Frame.Cipher, step: Step, e: Endpoint, key: Key)
    requires Valid(n) && Enabled(n, step)
    ensures Next(n, c, step).handled[(e, key)] ==
              n.handled[(e, key)] + if !step.Tick? && e == Mover(step) then Result(n, c, step).1.log[Handled(key)] else 0
  {
    if !step.Tick? {
      RpcEffects.HandledExactly(n.nodes[Mover(step)], c, NodeEvent(n, step), key);
    }
  }
}
