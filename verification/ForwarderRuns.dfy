/** Whole lives of a forwarder: any sequence of callbacks, timers and rounds of the tunneler's loop. */
module ForwarderRuns {
  import opened Octets
  import opened PBufQueue
  import opened OutputQueue
  import opened ForwarderState
  import opened PortForwarder

  /** What can happen to a forwarder, with the answers of everything around it. */
  datatype Event =
    | Accept(accepted: bool, query: DnsResult, created: bool, space: nat, starts: bool)
    | NameFound(sameName: bool, found: bool, starts: bool)
    | HandshakeDone
    | StackError
    | Segment(parts: seq<seq<byte>>)
    | Acknowledged(len: nat, pending: bool)
    | RemoteClosed
    | ConnectTimer
    | FflushTimer
    | RflushTimer
    | LocalRound(readable: bool, writable: bool, incoming: Incoming, obtained: bool)
    | TunnelRound
    | AbortAll

  /** What an event is judged by. */
  datatype Facts = Facts(
    state: State, serverOpen: bool, live: bool, resolving: bool, timing: bool, fflushTiming: bool, rflushTiming: bool,
    connectTimeout: bool, fflushTimeout: bool, rflushTimeout: bool, taken: seq<byte>, recved: seq<byte>,
    room: nat, replyEmpty: bool, replySize: nat, sndBuf: nat)
  {
    predicate Talking() { live && (state == CONNECTED || state == DISCONNECTING) }

    /** The reply queue would take a chain of so many bytes. */
    predicate Takes(total: nat) {
      total > 0 && replySize != QUEUE_SIZE && (!replyEmpty ==> replySize + total <= QUEUE_SIZE)
    }
  }

  ghost function FactsOf(pf: PortForwarder): Facts
    reads pf, pf.client, pf.forwardQueue, pf.forwardQueue.chain, pf.replyQueue, pf.replyQueue.chain
  {
    Facts(pf.state, pf.serverOpen, pf.live, pf.resolving, pf.timing, pf.fflushTiming, pf.rflushTiming,
          pf.connectTimeout, pf.fflushTimeout, pf.rflushTimeout, pf.taken, pf.recved,
          pf.Room(), pf.replyQueue.IsEmpty(), pf.replyQueue.Size(), if pf.client == null then 0 else pf.client.sndBuf)
  }

  /** What an event does to a forwarder that it can happen to. */
  predicate Happened(e: Event, f: Facts, g: Facts) {
    match e
    case Accept(accepted, query, created, _, starts) =>
      f.state == READY ==>
        g.state == if accepted && created && (query == DnsInProgress || (query == DnsOk && starts)) then CONNECTING else FAILED
    case NameFound(sameName, found, starts) =>
      f.resolving ==> !g.resolving && g.state == if sameName && found && starts then CONNECTING else FAILED
    case HandshakeDone => f.live && f.state == CONNECTING ==> g.state == CONNECTED
    case StackError => f.live ==> g.state == DISCONNECTED
    case Segment(parts) =>
      f.Talking() && parts != [] && |Flatten(parts)| <= 0xFFFF ==>
        g.recved == if f.serverOpen && !f.Takes(|Flatten(parts)|) then f.recved else f.recved + Flatten(parts)
    case Acknowledged(len, _) => f.live && f.Talking() ==> g.sndBuf == f.sndBuf + len
    case RemoteClosed => f.state == CONNECTED ==> g.state == DISCONNECTING && g.serverOpen
    case ConnectTimer => f.timing ==> g.connectTimeout
    case FflushTimer => f.fflushTiming ==> g.fflushTimeout
    case RflushTimer => f.rflushTiming ==> g.rflushTimeout
    case LocalRound(readable, writable, incoming, _) =>
      && (f.state == CONNECTED && readable ==> g.taken == f.taken + Received(incoming, f.room))
      && (f.state == DISCONNECTING && f.serverOpen && writable ==> g.state == DISCONNECTED)
    case TunnelRound =>
      && (f.state == CONNECTING && f.connectTimeout ==> g.state == DISCONNECTED)
      && (f.state == DISCONNECTING && f.live && f.fflushTimeout ==> g.state == DISCONNECTED)
    case AbortAll => f.state == CONNECTED ==> g.state == DISCONNECTED
  }

  lemma KnownOf(pf: PortForwarder)
    requires pf.Valid()
    ensures pf.replyQueue.capacity == QUEUE_SIZE && (pf.state == CONNECTED ==> pf.live)
    ensures pf.state == CONNECTED || pf.state == DISCONNECTING ==> (pf.live ==> pf.client != null)
  {
  }

  /** A segment from the remote host, as a chain of buffers. */
  method Deliver(pf: PortForwarder, parts: seq<seq<byte>>)
    requires pf.Valid() && Settled(pf.View()) && FactsOf(pf).Talking()
    modifies pf, pf.replyQueue, pf.replyQueue.repr
    ensures pf.Valid() && Next(old(pf.View()), pf.View()) && pf.client == old(pf.client)
    ensures pf.forwardQueue.repr == old(pf.forwardQueue.repr)
    ensures fresh(pf.replyQueue.repr - old(pf.replyQueue.repr))
    ensures Happened(Segment(parts), old(FactsOf(pf)), FactsOf(pf))
  {
    hide Chain, Distinct, Apart, Bytes, pf.Valid, Next, pf.replyQueue.Valid, pf.replyQueue.Contents, PBufQueue.Fits;
    NoChange(pf.View());
    KnownOf(pf);
    var p, nodes := NewChain(parts);
    TotalIsLength(nodes);
    if p != null && p.totLen <= 0xFFFF {
      var _ := pf.TcpRecv(p, nodes);
    }
  }

  /** The timers, the acknowledgements and the callbacks that a forwarder waits for. */
  method Callback(pf: PortForwarder, event: Event)
    requires pf.Valid() && Settled(pf.View()) && !event.Accept? && !event.LocalRound? && !event.TunnelRound?
    modifies pf, pf.client, pf.forwardQueue, pf.replyQueue, pf.replyQueue.repr
    ensures pf.Valid() && Next(old(pf.View()), pf.View()) && (pf.client == null || pf.client == old(pf.client))
    ensures pf.forwardQueue.repr == old(pf.forwardQueue.repr)
    ensures fresh(pf.replyQueue.repr - old(pf.replyQueue.repr))
    ensures Happened(event, old(FactsOf(pf)), FactsOf(pf))
  {
    hide Chain, Distinct, Apart, Bytes, pf.Valid, Next, pf.replyQueue.Valid, pf.replyQueue.Contents;
    NoChange(pf.View());
    KnownOf(pf);
    var talking := pf.live && (pf.state == CONNECTED || pf.state == DISCONNECTING);
    match event
    case NameFound(sameName, found, starts) =>
      if pf.resolving {
        pf.DnsFound(sameName, found, starts);
      }
    case HandshakeDone =>
      if pf.live && pf.state == CONNECTING {
        pf.TcpConnected();
      }
    case StackError =>
      if pf.live {
        pf.TcpErr();
      }
    case Segment(parts) =>
      if talking {
        Deliver(pf, parts);
      }
    case Acknowledged(len, pending) =>
      if pf.client != null && pf.live {
        Acknowledge(pf, len, pending);
      }
    case RemoteClosed =>
      if talking {
        pf.TcpClosed();
      }
    case ConnectTimer =>
      if pf.timing {
        pf.ConnectTimer();
      }
    case FflushTimer =>
      if pf.fflushTiming {
        pf.FflushTimer();
      }
    case RflushTimer =>
      if pf.rflushTiming {
        pf.RflushTimer();
      }
    case AbortAll =>
      if pf.state == CONNECTED {
        pf.Abort();
      }
    case _ =>
  }

  /** One event; what cannot happen now does nothing. */
  method Step(pf: PortForwarder, event: Event)
    requires pf.Valid() && Settled(pf.View())
    modifies pf, pf.server, pf.client, pf.forwardQueue, pf.forwardQueue.repr, pf.replyQueue, pf.replyQueue.repr
    ensures pf.Valid() && Next(old(pf.View()), pf.View())
    ensures fresh(pf.forwardQueue.repr - old(pf.forwardQueue.repr))
    ensures fresh(pf.replyQueue.repr - old(pf.replyQueue.repr))
    ensures pf.client == null || pf.client == old(pf.client) || fresh(pf.client)
    ensures Happened(event, old(FactsOf(pf)), FactsOf(pf))
  {
    hide Chain, Distinct, Apart, Bytes, pf.Valid, Next, pf.replyQueue.Valid, pf.replyQueue.Contents;
    match event
    case Accept(accepted, query, created, space, starts) =>
      var pcb: TcpPcb? := null;
      if created {
        pcb := new TcpPcb(space);
      }
      var _ := pf.Connect(accepted, query, pcb, starts);
    case LocalRound(readable, writable, incoming, obtained) =>
      ServeLocal(pf, readable, writable, incoming, obtained);
    case TunnelRound =>
      pf.EndpointsFollowState();
      ServeTunnel(pf);
    case _ => Callback(pf, event);
  }

  /** An acknowledgement makes room in the send buffer and changes nothing else. */
  method Acknowledge(pf: PortForwarder, len: nat, pending: bool)
    requires pf.Valid() && pf.client != null
    modifies pf.client
    ensures pf.Valid() && pf.View() == old(pf.View()) && pf.client.sndBuf == old(pf.client.sndBuf) + len
  {
    hide Chain, Distinct, PBufQueue.Valid, PBufQueue.Contents, PBufQueue.Fits;
    pf.client.Acknowledged(len, pending);
  }

  /** A forwarder between two events, with what its queues hold. */
  datatype Moment = Moment(view: Snapshot, toForward: seq<byte>, toReply: seq<byte>, facts: Facts)

  ghost function At(pf: PortForwarder): Moment
    requires pf.forwardQueue.Valid() && pf.replyQueue.Valid()
    reads pf, pf.server, pf.client, pf.forwardQueue, pf.forwardQueue.repr, pf.replyQueue, pf.replyQueue.repr,
          pf.forwardQueue.chain, pf.replyQueue.chain
  {
    Moment(pf.View(), pf.forwardQueue.Contents(), pf.replyQueue.Contents(), FactsOf(pf))
  }

  /**
   * No byte is lost, doubled or moved out of order: both ways while the forwarder is connected, and while it
   * disconnects on the side that is still there.
   */
  predicate Conserved(m: Moment) {
    var v := m.view;
    && Sound(v) && Settled(v)
    && (v.state == CONNECTED ==> v.taken == v.forwarded + m.toForward && v.recved == v.sent + m.toReply)
    && (v.state == DISCONNECTING && v.remote ==> v.read == v.forwarded + m.toForward)
    && (v.state == DISCONNECTING && v.local ==> v.recved == v.sent + m.toReply)
  }

  lemma ValidIsConserved(pf: PortForwarder)
    requires pf.Valid() && Settled(pf.View())
    ensures Conserved(At(pf))
  {
    hide Chain, Distinct, pf.forwardQueue.Valid, pf.forwardQueue.Contents, pf.forwardQueue.Fits;
    pf.ValidIsSound();
  }

  /** What holds between a moment and any later one. */
  predicate Later(v: Snapshot, w: Snapshot) {
    && Reaches(v.state, w.state)
    && v.taken <= w.taken && v.read <= w.read && v.forwarded <= w.forwarded
    && v.recved <= w.recved && v.sent <= w.sent
    && (v.state == FAILED || v.state == DISCONNECTED ==>
         w.taken == v.taken && w.forwarded == v.forwarded && w.recved == v.recved && w.sent == v.sent)
  }

  lemma AtOnce(v: Snapshot)
    ensures Later(v, v) && (v.state == READY ==> Settled(v))
  {
  }

  lemma LaterStill(u: Snapshot, v: Snapshot, w: Snapshot)
    requires Later(u, v) && Next(v, w)
    ensures Later(u, w)
  {
  }

  lemma StaysSettled(v: Snapshot, w: Snapshot)
    requires Settled(v) && Next(v, w)
    ensures Settled(w)
  {
  }

  /**
   * From the constructor on, over every sequence of events: each event has its effect; after every event each
   * endpoint exists in exactly the states that use it and no byte is lost on the way; the state only moves
   * along the forwarder's life, and no stream is taken back.
   */
  method Run(answers: nat -> Answer, events: seq<Event>) returns (ghost trace: seq<Moment>)
    ensures |trace| == |events| + 1
    ensures trace[0].view == Snapshot(READY, false, false, [], [], [], [], [])
    ensures forall i :: 0 <= i < |events| ==> Happened(events[i], trace[i].facts, trace[i + 1].facts)
    ensures forall i :: 0 <= i < |trace| ==> Conserved(trace[i])
    ensures forall i, j :: 0 <= i <= j < |trace| ==> Later(trace[i].view, trace[j].view)
  {
    hide Chain, Conserved, Later, Next, Settled, Happened, FactsOf, PBufQueue.Valid, PBufQueue.Contents;
    var pf := new PortForwarder(answers);
    trace := [At(pf)];
    AtOnce(pf.View());
    ValidIsConserved(pf);
    for k := 0 to |events|
      invariant fresh(pf) && fresh(pf.server) && fresh(pf.forwardQueue) && fresh(pf.replyQueue)
      invariant fresh(pf.forwardQueue.repr) && fresh(pf.replyQueue.repr) && (pf.client != null ==> fresh(pf.client))
      invariant pf.Valid() && Settled(pf.View())
      invariant |trace| == k + 1 && trace[k] == At(pf)
      invariant trace[0].view == Snapshot(READY, false, false, [], [], [], [], [])
      invariant forall i :: 0 <= i < k ==> Happened(events[i], trace[i].facts, trace[i + 1].facts)
      invariant forall i :: 0 <= i < |trace| ==> Conserved(trace[i])
      invariant forall i, j :: 0 <= i <= j < |trace| ==> Later(trace[i].view, trace[j].view)
    {
      ghost var before := pf.View();
      Step(pf, events[k]);
      StaysSettled(before, pf.View());
      ValidIsConserved(pf);
      HistoryGrows(trace, At(pf), trace + [At(pf)]);
      trace := trace + [At(pf)];
    }
  }

  /** A history goes on by one event. */
  lemma HistoryGrows(trace: seq<Moment>, m: Moment, longer: seq<Moment>)
    requires longer == trace + [m]
    requires trace != [] && Conserved(m) && Next(trace[|trace| - 1].view, m.view)
    requires forall i :: 0 <= i < |trace| ==> Conserved(trace[i])
    requires forall i, j :: 0 <= i <= j < |trace| ==> Later(trace[i].view, trace[j].view)
    ensures forall i :: 0 <= i < |longer| ==> Conserved(longer[i])
    ensures forall i, j :: 0 <= i <= j < |longer| ==> Later(longer[i].view, longer[j].view)
  {
    hide Conserved, Next, Later;
    var last := trace[|trace| - 1].view;
    AtOnce(m.view);
    forall i, j | 0 <= i <= j < |longer|
      ensures Later(longer[i].view, longer[j].view)
    {
      if i < |trace| <= j {
        LaterStill(longer[i].view, last, m.view);
      }
    }
  }

  /** A forwarder that has just connected. */
  method Connected(answers: nat -> Answer) returns (pf: PortForwarder)
    ensures pf.Valid() && fresh(pf) && fresh(pf.server) && fresh(pf.forwardQueue) && fresh(pf.replyQueue)
    ensures fresh(pf.forwardQueue.repr) && fresh(pf.replyQueue.repr) && pf.client != null && fresh(pf.client)
    ensures pf.state == CONNECTED && pf.server.answers == answers
    ensures pf.forwardQueue.IsEmpty() && pf.replyQueue.IsEmpty() && pf.taken == [] == pf.recved && pf.server.sent == []
    ensures pf.serverOpen && pf.live
  {
    hide Chain, Distinct, PBufQueue.Valid, PBufQueue.Contents, PBufQueue.Fits;
    pf := new PortForwarder(answers);
    var pcb := new TcpPcb(0x10000);
    var ok := pf.Connect(true, DnsOk, pcb, true);
    pf.TcpConnected();
  }

  /**
   * A run in which an acknowledged reply is lost: one byte arrives for the local client, the remote host
   * closes, and the socket happens to be busy at the one write that is made.
   */
  method ReplyIsLost() returns (pf: PortForwarder)
    ensures pf.Valid() && pf.state == DISCONNECTED && pf.recved == [7] && pf.server.sent == []
  {
    hide Chain, Distinct, PBufQueue.Valid, PBufQueue.Contents, PBufQueue.Fits;
    pf := Connected(_ => Busy);
    var p := new Pbuf([7]);
    ghost var nodes := [p];
    SingleIsChain(p);
    var refused := pf.TcpRecv(p, nodes);
    assert pf.recved == [7];
    pf.TcpClosed();
    RefusedAtOnce(pf.replyQueue.Blocks(), pf.server.answers, pf.server.calls);
    pf.FlushReplyQueue();
    assert |pf.server.sent| == 0;
  }

  lemma RefusedAtOnce(blocks: seq<nat>, answers: nat -> Answer, k: nat)
    requires answers(k) == Busy
    ensures Leaves(blocks, answers, k) == 0
  {
  }

  /**
   * A run in which a byte taken from the local client is lost: no buffer can be allocated for it, and the
   * forwarder still ends as if it had forwarded everything.
   */
  method ByteIsLost() returns (pf: PortForwarder)
    ensures pf.Valid() && pf.state == DISCONNECTED && pf.taken == [7] && pf.forwarded == []
  {
    hide Chain, Distinct, PBufQueue.Valid, PBufQueue.Contents, PBufQueue.Fits;
    pf := Connected(_ => Busy);
    RoomWhenEmpty(pf);
    var ok := pf.Recv(RcvOk([7]), false);
    pf.Disconnect();
    ghost var _ := pf.FlushForwardQueue();
  }

  lemma RoomWhenEmpty(pf: PortForwarder)
    requires pf.Valid() && pf.state == CONNECTED && pf.forwardQueue.IsEmpty()
    ensures pf.Room() == BUFFER_SIZE == 2048
  {
    hide Chain, Distinct;
  }
}
