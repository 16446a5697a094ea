/** One forwarded connection: a local socket, a TCP control block in the tunnel, a queue each way. */
module PortForwarder {
  import opened Octets
  import opened PBufQueue
  import opened OutputQueue
  import opened ForwarderState

  const QUEUE_SIZE: nat := 8 * 1024
  const BUFFER_SIZE: nat := 2048

  datatype DnsResult = DnsOk | DnsInProgress | DnsNotConfigured | DnsFailure

  /** What waits in the local socket when recv_data looks: some bytes, nothing yet, end of stream or an error. */
  datatype Incoming = RcvOk(data: seq<byte>) | RcvRetry | RcvEof | RcvError

  /** The bytes that recv_data returns to a caller with so much space. */
  function Received(incoming: Incoming, space: nat): (data: seq<byte>)
    ensures |data| <= space
  {
    if !incoming.RcvOk? then []
    else if |incoming.data| <= space then incoming.data
    else incoming.data[..space]
  }

  /** What can be seen of a forwarder: its state, its endpoints and the bytes that have passed each point. */
  datatype Snapshot = Snapshot(state: State, local: bool, remote: bool, taken: seq<byte>, read: seq<byte>,
                       forwarded: seq<byte>, recved: seq<byte>, sent: seq<byte>)

  /** Which endpoints exist, and what has come out is in order and without a gap what has gone in. */
  predicate Sound(v: Snapshot) {
    && (v.state == READY ==> !v.local && !v.remote)
    && (v.state == CONNECTED ==> v.local && v.remote)
    && (v.state == DISCONNECTING ==> v.local != v.remote)
    && (v.state == READY || v.state == CONNECTING ==> v.taken == [] && v.recved == [])
    && v.forwarded <= v.read <= v.taken
    && v.sent <= v.recved
  }

  /** While the forwarder is connected no byte is missing from the forward queue's input. */
  predicate Settled(v: Snapshot) { v.state == CONNECTED ==> v.read == v.taken }

  /** One event: a move along the forwarder's life, streams only grow, and not at all once that life is over. */
  predicate Grows(v: Snapshot, w: Snapshot) {
    && Moves(v.state, w.state)
    && v.taken <= w.taken && v.read <= w.read && v.forwarded <= w.forwarded
    && v.recved <= w.recved && v.sent <= w.sent
    && (v.state == FAILED || v.state == DISCONNECTED ==>
         w.taken == v.taken && w.forwarded == v.forwarded && w.recved == v.recved && w.sent == v.sent)
  }

  predicate Next(v: Snapshot, w: Snapshot) { Grows(v, w) && (Settled(v) ==> Settled(w)) }

  /** Two events of which the first leaves the state alone, or the second does. */
  lemma GrowsTwice(u: Snapshot, v: Snapshot, w: Snapshot)
    requires Next(u, v) && Next(v, w) && (u.state == v.state || v.state == w.state)
    ensures Next(u, w)
  {
  }

  /** The end of a forwarder's life moves no byte. */
  lemma Ends(v: Snapshot, w: Snapshot)
    requires w.state == DISCONNECTED && Moves(v.state, DISCONNECTED)
    requires w.taken == v.taken && w.read == v.read && w.forwarded == v.forwarded
    requires w.recved == v.recved && w.sent == v.sent
    ensures Next(v, w)
  {
  }

  lemma NoChange(v: Snapshot)
    ensures Next(v, v)
  {
  }

  class PortForwarder {
    var state: State
    const server: Socket
    var serverOpen: bool
    var client: TcpPcb?
    var connectTimeout: bool
    var fflushTimeout: bool
    var rflushTimeout: bool
    const replyQueue: PBufQueue
    const forwardQueue: PBufQueue

    /** A host name query is under way. */
    var resolving: bool
    /** The control block exists and calls back. */
    var live: bool
    /** The connection timer and the two flush timers run. */
    var timing: bool
    var fflushTiming: bool
    var rflushTiming: bool
    /** Every byte that recv_data has taken from the local socket. */
    ghost var taken: seq<byte>
    /** Every byte of these that went into the forward queue. */
    ghost var read: seq<byte>
    /** No buffer could be allocated for bytes already taken. */
    ghost var lost: bool
    /** Every byte given to tcp_write. */
    ghost var forwarded: seq<byte>
    /** Every byte acknowledged with tcp_recved. */
    ghost var recved: seq<byte>

    ghost predicate Separate()
      reads this, replyQueue, forwardQueue
    {
      && replyQueue != forwardQueue
      && replyQueue.repr !! forwardQueue.repr
    }

    /** Bytes keep their order in both directions, in every state. */
    ghost predicate Streams()
      reads this, server
    {
      && forwarded <= read <= taken
      && (lost <==> read != taken)
      && server.sent <= recved
    }

    /** Which endpoints exist in which state. */
    ghost predicate Endpoints()
      reads this
    {
      match state
      case READY => !serverOpen && client == null && !live && !resolving && !connectTimeout && !timing
      case FAILED => !live && !resolving
      case CONNECTING => serverOpen && client != null && live == !resolving &&
        (if resolving then !connectTimeout && !timing else timing || connectTimeout)
      case CONNECTED => serverOpen && client != null && live && !resolving && !connectTimeout && !timing
      case DISCONNECTING => serverOpen != live && (client != null <==> live) && !resolving &&
        (if live then fflushTiming || fflushTimeout else rflushTiming || rflushTimeout)
      case DISCONNECTED => !serverOpen && !live && !resolving
    }

    /** What the queues hold is exactly what has gone in and not yet come out. */
    ghost predicate Queues()
      requires forwardQueue.Valid() && replyQueue.Valid()
      reads this, server, client, forwardQueue, forwardQueue.repr, replyQueue, replyQueue.repr
    {
      && forwardQueue.capacity == QUEUE_SIZE && replyQueue.capacity == QUEUE_SIZE
      && forwardQueue.Fits()
      && match state
         case READY => forwardQueue.Contents() == [] == replyQueue.Contents() && taken == [] == recved
         case CONNECTING => forwardQueue.Contents() == [] == replyQueue.Contents() && taken == [] == recved &&
           (client != null ==> client.given == [])
         case CONNECTED =>
           && read == forwarded + forwardQueue.Contents()
           && recved == server.sent + replyQueue.Contents()
           && (client != null ==> client.given == forwarded)
         case DISCONNECTING =>
           && (live ==> read == forwarded + forwardQueue.Contents() && replyQueue.Contents() == [])
           && (live && client != null ==> client.given == forwarded)
           && (!live ==> recved == server.sent + replyQueue.Contents() && forwardQueue.IsEmpty())
         case _ => true
    }

    ghost predicate Valid()
      reads this, server, client, forwardQueue, forwardQueue.repr, replyQueue, replyQueue.repr
    {
      && forwardQueue.Valid() && replyQueue.Valid() && Separate()
      && Streams() && Endpoints() && Queues()
    }

    ghost function View(): Snapshot
      reads this, server
    {
      Snapshot(state, serverOpen, client != null, taken, read, forwarded, recved, server.sent)
    }

    /** No object has joined the forwarder. */
    ghost predicate Keeps(was: TcpPcb?, forward: set<Pbuf>, reply: set<Pbuf>)
      reads this, forwardQueue, replyQueue
    {
      (client == was || client == null) && forwardQueue.repr == forward && replyQueue.repr == reply
    }

    ghost predicate Parts()
      reads this, server, forwardQueue, forwardQueue.repr, replyQueue, replyQueue.repr
    {
      && forwardQueue.Valid() && replyQueue.Valid() && Separate() && Streams()
      && forwardQueue.capacity == QUEUE_SIZE && replyQueue.capacity == QUEUE_SIZE
      && forwardQueue.Fits()
    }

    lemma ValidHasParts()
      requires Valid()
      ensures Parts()
      ensures live ==> !resolving
      ensures state == CONNECTED ==> live
      ensures state == DISCONNECTING ==> serverOpen != live && (client != null <==> live) && !resolving
      ensures state == DISCONNECTING && live ==> read == forwarded + forwardQueue.Contents()
      ensures state == DISCONNECTING && !live ==>
        recved == server.sent + replyQueue.Contents() && forwardQueue.IsEmpty()
      ensures lost <==> read != taken
    {
    }

    /** A forwarder without endpoints whose life is over needs no more than its parts. */
    lemma OverIsValid()
      requires Parts() && state == DISCONNECTED && !serverOpen && !live && !resolving
      ensures Valid()
    {
    }

    /** A forwarder that waits for the remote host, or for room to send, has a timer that runs or has run out. */
    lemma TimersGuardWaiting()
      requires Valid()
      ensures state == CONNECTING && !resolving ==> timing || connectTimeout
      ensures state == DISCONNECTING && CanFlushForwardQueue() ==> fflushTiming || fflushTimeout
      ensures state == DISCONNECTING && CanFlushReplyQueue() ==> rflushTiming || rflushTimeout
    {
    }

    lemma ValidIsSound()
      requires Valid()
      ensures Sound(View())
    {
    }

    constructor (answers: nat -> Answer)
      ensures Valid() && server.answers == answers && server.calls == 0
      ensures fresh(server) && fresh(replyQueue) && fresh(forwardQueue)
      ensures forwardQueue.repr == {} == replyQueue.repr && client == null
      ensures forwardQueue.IsEmpty() && replyQueue.IsEmpty()
      ensures View() == Snapshot(READY, false, false, [], [], [], [], [])
      ensures !resolving && !live && !timing && !fflushTiming && !rflushTiming
      ensures !connectTimeout && !fflushTimeout && !rflushTimeout
      ensures forwardQueue.capacity == 8192 == replyQueue.capacity
    {
      hide Chain, Distinct, Apart, Bytes;
      state := READY;
      server := new Socket(answers);
      serverOpen := false;
      client := null;
      connectTimeout, fflushTimeout, rflushTimeout := false, false, false;
      replyQueue := new PBufQueue(QUEUE_SIZE);
      forwardQueue := new PBufQueue(QUEUE_SIZE);
      resolving, live, timing, fflushTiming, rflushTiming := false, false, false, false, false;
      taken, read, forwarded, recved, lost := [], [], [], [], false;
    }

    /** The states in which endpoints are used are the states in which they exist. */
    lemma EndpointsFollowState()
      requires Valid()
      ensures state == CONNECTED ==> serverOpen && client != null && live
      ensures state == DISCONNECTING ==> CanFlushReplyQueue() != CanFlushForwardQueue()
      ensures state == DISCONNECTING ==> CanFlushForwardQueue() == live
      ensures state == CONNECTING && connectTimeout ==> live
    {
    }

    /** Accepts the local client and starts towards the remote host; what the environment answers is given. */
    method Connect(accepted: bool, query: DnsResult, pcb: TcpPcb?, connecting: bool) returns (ok: bool)
      requires Valid() && (pcb != null ==> pcb.given == [])
      modifies this
      ensures Valid() && Next(old(View()), View())
      ensures client == old(client) || client == null || client == pcb
      ensures ok == (old(state) == READY && accepted && (query == DnsOk || query == DnsInProgress) && pcb != null)
      ensures old(state) == READY && !ok ==> state == FAILED
      ensures ok ==> state == if query == DnsOk && !connecting then FAILED else CONNECTING
      ensures ok ==> resolving == (query == DnsInProgress)
      ensures old(state) == READY ==> serverOpen == (accepted && !(ok && state == FAILED))
      ensures old(state) != READY ==> !ok && state == old(state)
    {
      hide Chain, Distinct, Apart, Bytes, replyQueue.Valid, replyQueue.Contents, replyQueue.Fits;
      if state != READY {
        return false;
      }
      if !accepted {
        state := FAILED;
        return false;
      }
      serverOpen := true;
      if query == DnsOk || query == DnsInProgress {
        state := CONNECTING;
      } else {
        state := FAILED;
      }
      if state == FAILED {
        return false;
      }
      client := pcb;
      if client == null {
        state := FAILED;
        return false;
      }
      resolving := true;
      if query == DnsOk {
        DnsFound(true, true, connecting);
      }
      return true;
    }

    /** dns_found_cb: the name is resolved, or not. */
    method DnsFound(sameName: bool, found: bool, connecting: bool)
      requires Valid() && resolving
      modifies this
      ensures Valid() && Next(old(View()), View()) && client == old(client) && !resolving
      ensures state == if sameName && found && connecting then CONNECTING else FAILED
      ensures serverOpen == (old(serverOpen) && !(sameName && found && !connecting))
    {
      hide Chain, Distinct, Apart, Bytes, replyQueue.Valid, replyQueue.Contents, replyQueue.Fits;
      resolving := false;
      if !sameName {
        state := FAILED;
        return;
      }
      if !found {
        state := FAILED;
        return;
      }
      if connecting {
        timing := true;
        live := true;
      } else {
        state := FAILED;
        serverOpen := false;
      }
    }

    /** tcp_connected_cb: comes once, while the handshake is under way. */
    method TcpConnected()
      requires Valid() && live && state == CONNECTING
      modifies this
      ensures Valid() && state == CONNECTED && Next(old(View()), View()) && client == old(client)
    {
      hide Chain, Distinct, Apart, Bytes, replyQueue.Valid, replyQueue.Contents, replyQueue.Fits;
      state := CONNECTED;
      assert server.sent + [] == server.sent;
      timing := false;
      connectTimeout := false;
    }

    /** tcp_err_cb: the control block is gone. The field still refers to it, in a state that never uses it. */
    method TcpErr()
      requires live
      modifies this`state, this`live, this`serverOpen
      ensures state == DISCONNECTED && !live && !serverOpen
      ensures old(Valid()) ==> Valid() && Next(old(View()), View())
    {
      hide Chain, Distinct, Apart, Bytes, replyQueue.Valid, replyQueue.Contents, replyQueue.Fits;
      state := DISCONNECTED;
      live := false;
      if serverOpen {
        serverOpen := false;
      }
    }

    /** tcp_recv_cb with data: queued for the local client, refused, or dropped once that client is gone. */
    method TcpRecv(p: Pbuf, ghost nodes: seq<Pbuf>) returns (refused: bool)
      requires Valid() && live && (state == CONNECTED || state == DISCONNECTING)
      requires Chain(nodes) && p == NodeAt(nodes, 0) && TotalAt(nodes, 0) <= 0xFFFF
      requires forall n :: n in nodes ==> n !in forwardQueue.repr && n !in replyQueue.repr
      modifies this`recved, replyQueue, replyQueue.repr
      ensures Valid() && state == old(state) && Next(old(View()), View())
      ensures replyQueue.repr <= old(replyQueue.repr) + Nodes(nodes) && forwardQueue.repr == old(forwardQueue.repr)
      ensures recved == if refused then old(recved) else old(recved) + Bytes(nodes)
      ensures refused == (serverOpen && !old(replyQueue.Takes(p.totLen)))
      ensures !serverOpen ==> !refused && replyQueue.Contents() == old(replyQueue.Contents())
      ensures forwardQueue.Contents() == old(forwardQueue.Contents())
    {
      hide Chain, Distinct, Apart, Bytes, replyQueue.Valid, replyQueue.Contents, replyQueue.Fits;
      refused := false;
      if !serverOpen {
        recved := recved + Bytes(nodes);
      } else {
        NodesApart(replyQueue, nodes);
        ghost var before := replyQueue.Contents();
        var pushed := replyQueue.Push(p, nodes);
        if !pushed {
          refused := true;
        } else {
          recved := recved + Bytes(nodes);
          assert recved == server.sent + (before + Bytes(nodes));
        }
      }
    }

    /** tcp_recv_cb without data: the remote host has closed its side. */
    method TcpClosed()
      requires Valid() && live && (state == CONNECTED || state == DISCONNECTING)
      modifies this, forwardQueue
      ensures Valid() && Next(old(View()), View())
      ensures Keeps(old(client), old(forwardQueue.repr), old(replyQueue.repr))
      ensures state == DISCONNECTING && (old(state) == CONNECTED ==> serverOpen && client == null)
      ensures old(state) == DISCONNECTING ==> serverOpen == old(serverOpen) && client == old(client)
      ensures replyQueue.Contents() == old(replyQueue.Contents())
    {
      hide Chain, Distinct, Apart, Bytes, replyQueue.Valid, replyQueue.Contents, replyQueue.Fits;
      if state == CONNECTED {
        state := DISCONNECTING;
        live := false;
        client := null;
        forwardQueue.Clear();
        rflushTiming := true;
      }
    }

    /** timeout_cb for the connection timer, which is cancelled once the connection stands. */
    method ConnectTimer()
      requires Valid() && timing
      modifies this`connectTimeout, this`timing
      ensures Valid() && connectTimeout && !timing && state == old(state)
    {
      timing := false;
      connectTimeout := true;
    }

    method FflushTimer()
      requires Valid() && fflushTiming
      modifies this`fflushTimeout, this`fflushTiming
      ensures Valid() && fflushTimeout && !fflushTiming && state == old(state)
    {
      fflushTiming := false;
      fflushTimeout := true;
    }

    method RflushTimer()
      requires Valid() && rflushTiming
      modifies this`rflushTimeout, this`rflushTiming
      ensures Valid() && rflushTimeout && !rflushTiming && state == old(state)
    {
      rflushTiming := false;
      rflushTimeout := true;
    }

    predicate HasConnectionTimedOut()
      reads this
    {
      state == CONNECTING && connectTimeout
    }

    predicate CanFlushReplyQueue()
      reads this
    {
      serverOpen
    }

    predicate CanFlushForwardQueue()
      reads this
    {
      client != null
    }

    /** There is something for TCP to do: segments not yet sent, or bytes and room for them. */
    predicate HasDataToForward()
      reads this, client, forwardQueue
    {
      client != null && (client.unsent || (!forwardQueue.IsEmpty() && client.sndBuf != 0))
    }

    /** The local client has gone: what it sent is still forwarded, what it was sent is dropped. */
    method Disconnect()
      requires Valid()
      modifies this, replyQueue
      ensures Valid() && Grows(old(View()), View()) && Settled(View())
      ensures Keeps(old(client), old(forwardQueue.repr), old(replyQueue.repr))
      ensures state == if old(state) == CONNECTED then DISCONNECTING else old(state)
      ensures old(state) == CONNECTED ==> !serverOpen && client == old(client)
      ensures forwardQueue.Contents() == old(forwardQueue.Contents()) && replyQueue.repr == old(replyQueue.repr)
      ensures server.sent == old(server.sent) && server.calls == old(server.calls)
      ensures forwardQueue.IsEmpty() == old(forwardQueue.IsEmpty())
      ensures old(state) != CONNECTED ==> View() == old(View())
      ensures taken == old(taken) && read == old(read) && forwarded == old(forwarded) && recved == old(recved)
      ensures old(state) != CONNECTED ==> replyQueue.Contents() == old(replyQueue.Contents())
    {
      hide Chain, Distinct, Apart, Bytes, replyQueue.Valid, replyQueue.Contents, replyQueue.Fits;
      if state != CONNECTED {
        return;
      }
      state := DISCONNECTING;
      serverOpen := false;
      replyQueue.Clear();
      fflushTiming := true;
    }

    /** tcp_abort calls tcp_err_cb before it returns, so the forwarder ends up disconnected at once. */
    method Abort()
      requires Valid() && (state == CONNECTED || (state == CONNECTING && live))
      modifies this, replyQueue, forwardQueue
      ensures Valid() && state == DISCONNECTED && Next(old(View()), View())
      ensures Keeps(old(client), old(forwardQueue.repr), old(replyQueue.repr))
      ensures client == null && replyQueue.Contents() == [] && forwardQueue.Contents() == []
      ensures taken == old(taken) && read == old(read) && forwarded == old(forwarded) && recved == old(recved)
    {
      hide Chain, Distinct, Apart, Bytes, replyQueue.Valid, replyQueue.Contents, replyQueue.Fits, Grows, Settled, Valid;
      ghost var before := View();
      ValidHasParts();
      state := DISCONNECTING;
      TcpErr();
      client := null;
      forwardQueue.Clear();
      replyQueue.Clear();
      OverIsValid();
      Ends(before, View());
    }

    /** How much recv asks recv_data for. */
    function Room(): nat
      reads this, forwardQueue, forwardQueue.chain
    {
      if state != CONNECTED then 0
      else if BUFFER_SIZE < forwardQueue.RemainingSpace() then BUFFER_SIZE
      else forwardQueue.RemainingSpace()
    }

    /**
     * Reads from the local client no more than the forward queue has room for: the push never fails. Bytes
     * for which no buffer can be allocated are gone; the caller disconnects the forwarder at once.
     */
    method Recv(incoming: Incoming, obtained: bool) returns (ok: bool)
      requires Valid() && Settled(View())
      modifies this`taken, this`read, this`lost, forwardQueue, forwardQueue.repr
      ensures Valid() && state == old(state) && Grows(old(View()), View()) && (ok ==> Settled(View()))
      ensures taken == old(taken) + Received(incoming, old(Room()))
      ensures read == if obtained then old(read) + Received(incoming, old(Room())) else old(read)
      ensures forwardQueue.Contents() ==
        old(forwardQueue.Contents()) + if obtained then Received(incoming, old(Room())) else []
      ensures !obtained ==> forwardQueue.IsEmpty() == old(forwardQueue.IsEmpty())
      ensures lost == (old(lost) || (Received(incoming, old(Room())) != [] && !obtained))
      ensures ok == (state == CONNECTED && (old(Room()) == 0 || (Received(incoming, old(Room())) != [] && obtained)))
      ensures replyQueue.repr == old(replyQueue.repr) && fresh(forwardQueue.repr - old(forwardQueue.repr))
      ensures replyQueue.Blocks() == old(replyQueue.Blocks())
    {
      hide Chain, Distinct, Apart, Bytes, replyQueue.Valid, replyQueue.Contents, replyQueue.Fits, replyQueue.Blocks;
      assert forwardQueue.Contents() + [] == forwardQueue.Contents() && read + [] == read && taken + [] == taken;
      if state != CONNECTED {
        return false;
      }
      var space := forwardQueue.RemainingSpace();
      var available := if BUFFER_SIZE < space then BUFFER_SIZE else space;
      if available == 0 {
        return true;
      }
      var data := Received(incoming, available);
      if data == [] {
        return false;
      }
      taken := taken + data;
      if !obtained {
        lost := true;
        return false;
      }
      Enqueue(data);
      return true;
    }

    /** What was taken from the socket goes behind what is queued. */
    method Enqueue(data: seq<byte>)
      requires forwardQueue.Valid() && replyQueue.Valid() && Separate() && forwardQueue.Fits()
      requires 0 < |data| <= forwardQueue.RemainingSpace()
      modifies this`read, forwardQueue, forwardQueue.repr
      ensures forwardQueue.Valid() && Separate() && forwardQueue.Fits() && read == old(read) + data
      ensures forwardQueue.Contents() == old(forwardQueue.Contents()) + data
      ensures replyQueue.Valid() && replyQueue.repr == old(replyQueue.repr)
      ensures replyQueue.Contents() == old(replyQueue.Contents()) && replyQueue.Blocks() == old(replyQueue.Blocks())
      ensures fresh(forwardQueue.repr - old(forwardQueue.repr))
    {
      hide Chain, Distinct, Apart, Bytes, replyQueue.Valid, replyQueue.Contents, replyQueue.Fits, replyQueue.Blocks;
      PushNew(forwardQueue, data);
      read := read + data;
    }

    /** Queued bytes go to TCP, in order, while the control block exists. */
    method WriteForward() returns (rc: LwipErr)
      requires Valid() && live && !resolving && (state == CONNECTED || state == DISCONNECTING)
      modifies this`forwarded, forwardQueue, forwardQueue.repr, client
      ensures Valid() && Next(old(View()), View())
      ensures forwarded + forwardQueue.Contents() == old(forwarded) + old(forwardQueue.Contents())
      ensures client != null && client.calls >= old(client.calls)
      ensures forwardQueue.IsEmpty() || client.sndBuf == 0 || client.Refused(old(client.calls))
      ensures rc == client.Verdict(old(client.calls), old(client.unsent))
      ensures client.outputs == old(client.outputs) + client.Due(old(client.calls), old(client.unsent))
      ensures old(forwardQueue.IsEmpty()) ==> forwardQueue.IsEmpty()
      ensures forwardQueue.repr == old(forwardQueue.repr)
    {
      hide Chain, Distinct, Apart, Bytes, replyQueue.Valid, replyQueue.Contents, replyQueue.Fits;
      assert read == forwarded + forwardQueue.Contents();
      var written;
      rc, written := WritePcb(forwardQueue, client);
      forwarded := client.given;
      assert forwarded <= forwarded + forwardQueue.Contents();
    }

    /** Queued replies go to the local client, in order, while its socket is open. */
    method WriteReplies() returns (rc: int)
      requires Valid() && serverOpen && (state == CONNECTED || state == DISCONNECTING)
      modifies server, replyQueue, replyQueue.repr
      ensures Valid() && Next(old(View()), View())
      ensures |server.sent| == |old(server.sent)| + Leaves(old(replyQueue.Blocks()), server.answers, old(server.calls))
      ensures server.sent + replyQueue.Contents() == old(server.sent) + old(replyQueue.Contents())
      ensures replyQueue.IsEmpty() || !server.last.SndOk?
      ensures server.calls == old(server.calls) <==> old(replyQueue.IsEmpty())
      ensures rc == if server.calls != old(server.calls) && server.last.SndError? then server.last.rc else 0
      ensures replyQueue.repr == old(replyQueue.repr)
    {
      hide Chain, Distinct, Apart, Bytes, replyQueue.Valid, replyQueue.Contents, replyQueue.Fits;
      assert recved == server.sent + replyQueue.Contents();
      var written;
      rc, written := WriteSocket(replyQueue, server);
      assert server.sent <= server.sent + replyQueue.Contents();
    }

    /** Hands queued bytes to TCP: it succeeds if and only if neither tcp_write nor tcp_output reported an error. */
    method Forward() returns (ok: bool)
      requires Valid()
      modifies this`forwarded, forwardQueue, forwardQueue.repr, client
      ensures Valid() && Next(old(View()), View()) && forwardQueue.repr == old(forwardQueue.repr)
      ensures state != CONNECTED ==> !ok && View() == old(View())
      ensures state == CONNECTED ==> client != null && (ok <==> client.Verdict(old(client.calls), old(client.unsent)) == ErrOk)
      ensures state == CONNECTED ==> client.outputs == old(client.outputs) + client.Due(old(client.calls), old(client.unsent))
      ensures forwarded + forwardQueue.Contents() == old(forwarded) + old(forwardQueue.Contents())
      ensures state == CONNECTED ==> forwardQueue.IsEmpty() || client.sndBuf == 0 || client.Refused(old(client.calls))
    {
      if state != CONNECTED {
        return false;
      }
      var rc := WriteForward();
      return rc == ErrOk;
    }

    /** Hands queued replies to the local client: it succeeds if and only if the socket reported no error code. */
    method Reply() returns (ok: bool)
      requires Valid()
      modifies server, replyQueue, replyQueue.repr
      ensures Valid() && Next(old(View()), View()) && replyQueue.repr == old(replyQueue.repr)
      ensures state != CONNECTED ==> !ok && server.sent == old(server.sent)
      ensures state == CONNECTED ==> (ok <==> !server.Failed(old(server.calls)))
      ensures state == CONNECTED ==>
        |server.sent| == |old(server.sent)| + Leaves(old(replyQueue.Blocks()), server.answers, old(server.calls))
      ensures server.sent + replyQueue.Contents() == old(server.sent) + old(replyQueue.Contents())
      ensures state == CONNECTED ==> replyQueue.IsEmpty() || !server.last.SndOk?
      ensures state == CONNECTED ==> (server.calls == old(server.calls) <==> old(replyQueue.IsEmpty()))
    {
      if state != CONNECTED {
        return false;
      }
      var rc := WriteReplies();
      return rc == 0;
    }

    /**
     * Forwards what the departed local client left behind, until all is out, an error or the timer. Ending
     * without either, it has forwarded all that was queued, which is all that was taken from the local
     * socket if and only if no allocation failed.
     */
    method FlushForwardQueue() returns (ghost rc: LwipErr)
      requires Valid() && (state == DISCONNECTING ==> CanFlushForwardQueue())
      modifies this, forwardQueue, forwardQueue.repr, client
      ensures Valid() && Next(old(View()), View())
      ensures Keeps(old(client), old(forwardQueue.repr), old(replyQueue.repr))
      ensures state == old(state) || (old(state) == DISCONNECTING && state == DISCONNECTED)
      ensures old(state) != DISCONNECTING ==> View() == old(View())
      ensures old(state) == DISCONNECTING ==>
        old(client) != null && rc == old(client).Verdict(old(client.calls), old(client.unsent))
      ensures old(state) == DISCONNECTING && state == DISCONNECTED ==>
        client == null && !live && forwardQueue.Contents() == []
      ensures taken == old(taken) && read == old(read) && recved == old(recved) && lost == old(lost)
      ensures old(state) == DISCONNECTING && state == DISCONNECTED && rc == ErrOk && !old(fflushTimeout) ==>
        forwarded == read && (forwarded == taken <==> !lost)
      ensures old(state) == DISCONNECTING && (rc != ErrOk || old(fflushTimeout)) ==> state == DISCONNECTED
      ensures old(state) == DISCONNECTING && old(forwardQueue.IsEmpty()) ==> state == DISCONNECTED
      ensures state == DISCONNECTING ==> !forwardQueue.IsEmpty()
    {
      hide Chain, Distinct, Apart, Bytes, replyQueue.Valid, replyQueue.Contents, replyQueue.Fits, Grows, Settled, Valid;
      ghost var before := View();
      NoChange(before);
      ValidHasParts();
      rc := ErrOk;
      if state != DISCONNECTING {
        return;
      }
      var status := WriteForward();
      rc := status;
      ghost var between := View();
      ValidHasParts();
      if status != ErrOk || fflushTimeout || forwardQueue.IsEmpty() {
        EmptyIsEmpty(forwardQueue);
        forwardQueue.Clear();
        live := false;
        client := null;
        state := DISCONNECTED;
        OverIsValid();
        Ends(between, View());
        GrowsTwice(before, between, View());
      }
    }

    /**
     * Sends what it can of the replies and always disconnects: the test meant for the reply queue looks at
     * the forward queue, which is empty whenever the control block is gone. Every acknowledged reply reaches
     * the local client if and only if the socket's next answers take all that is queued before the first
     * of them that is a refusal.
     */
    method FlushReplyQueue()
      requires Valid() && (state == DISCONNECTING ==> CanFlushReplyQueue())
      modifies this, server, forwardQueue, replyQueue, replyQueue.repr
      ensures Valid() && state == if old(state) == DISCONNECTING then DISCONNECTED else old(state)
      ensures Next(old(View()), View())
      ensures Keeps(old(client), old(forwardQueue.repr), old(replyQueue.repr))
      ensures taken == old(taken) && read == old(read) && recved == old(recved) && forwarded == old(forwarded)
      ensures old(state) == DISCONNECTING ==> recved == server.sent + replyQueue.Contents()
      ensures old(state) == DISCONNECTING ==>
        |server.sent| == |old(server.sent)| + Leaves(old(replyQueue.Blocks()), server.answers, old(server.calls))
      ensures old(state) == DISCONNECTING ==>
        (server.sent == recved <==>
         exists n: nat :: Suffice(old(replyQueue.Blocks()), server.answers, old(server.calls), n))
      ensures old(state) == DISCONNECTING ==> replyQueue.IsEmpty() || !server.last.SndOk?
    {
      hide Chain, Distinct, Apart, Bytes, Suffice, replyQueue.Valid, replyQueue.Contents, replyQueue.Fits,
              replyQueue.Blocks, Grows, Settled, Valid;
      ghost var before := View();
      NoChange(before);
      ValidHasParts();
      if state != DISCONNECTING {
        return;
      }
      AllLeaves(replyQueue.Blocks(), server.answers, server.calls);
      replyQueue.BlocksAddUp();
      var rc := WriteReplies();
      ghost var between := View();
      ValidHasParts();
      if rc != 0 || rflushTimeout || forwardQueue.IsEmpty() {
        forwardQueue.Clear();
        serverOpen := false;
        state := DISCONNECTED;
        OverIsValid();
        Ends(between, View());
        GrowsTwice(before, between, View());
      }
    }
  }

  /** The local side of a connected forwarder: what was read is queued, or the forwarder disconnects. */
  method ReadLocal(pf: PortForwarder, incoming: Incoming, obtained: bool)
    requires pf.Valid() && Settled(pf.View()) && pf.state == CONNECTED
    modifies pf, pf.forwardQueue, pf.forwardQueue.repr, pf.replyQueue
    ensures pf.Valid() && Settled(pf.View()) && Next(old(pf.View()), pf.View())
    ensures (pf.client == old(pf.client) || pf.client == null) && pf.replyQueue.repr == old(pf.replyQueue.repr)
    ensures fresh(pf.forwardQueue.repr - old(pf.forwardQueue.repr))
    ensures pf.taken == old(pf.taken) + Received(incoming, old(pf.Room()))
    ensures pf.state == if ReadsOn(incoming, obtained, old(pf.Room())) then CONNECTED else DISCONNECTING
    ensures pf.state == CONNECTED ==> pf.replyQueue.Blocks() == old(pf.replyQueue.Blocks())
    ensures pf.server.sent == old(pf.server.sent) && pf.server.calls == old(pf.server.calls)
  {
    hide pf.Valid;
    var ok := pf.Recv(incoming, obtained);
    if !ok {
      pf.Disconnect();
    }
  }

  /** recv succeeds: there is no room to read into, or bytes came and a buffer for them was found. */
  predicate ReadsOn(incoming: Incoming, obtained: bool, room: nat) {
    room == 0 || (Received(incoming, room) != [] && obtained)
  }

  method WriteLocal(pf: PortForwarder)
    requires pf.Valid()
    modifies pf, pf.server, pf.replyQueue, pf.replyQueue.repr
    ensures pf.Valid() && Next(old(pf.View()), pf.View())
    ensures (pf.client == old(pf.client) || pf.client == null) && pf.replyQueue.repr == old(pf.replyQueue.repr)
    ensures fresh(pf.forwardQueue.repr - old(pf.forwardQueue.repr))
    ensures old(pf.state) != CONNECTED ==> pf.View() == old(pf.View())
    ensures old(pf.state) == CONNECTED ==>
      |pf.server.sent| == |old(pf.server.sent)| + Leaves(old(pf.replyQueue.Blocks()), pf.server.answers, old(pf.server.calls))
    ensures old(pf.state) == CONNECTED ==>
      pf.taken == old(pf.taken) && pf.state == if pf.server.Failed(old(pf.server.calls)) then DISCONNECTING else CONNECTED
  {
    hide pf.Valid;
    var ok := pf.Reply();
    if !ok {
      pf.Disconnect();
    }
  }

  /**
   * The tunneler's round over one forwarder, local side. A connected forwarder reads and then, if it is still
   * connected, replies; a disconnecting one is flushed, and that only on an open socket.
   */
  method ServeLocal(pf: PortForwarder, readable: bool, writable: bool, incoming: Incoming, obtained: bool)
    requires pf.Valid() && Settled(pf.View())
    modifies pf, pf.server, pf.forwardQueue, pf.forwardQueue.repr, pf.replyQueue, pf.replyQueue.repr
    ensures pf.Valid() && Next(old(pf.View()), pf.View())
    ensures (pf.client == old(pf.client) || pf.client == null) && pf.replyQueue.repr == old(pf.replyQueue.repr)
    ensures fresh(pf.forwardQueue.repr - old(pf.forwardQueue.repr))
    ensures old(pf.state) != CONNECTED && old(pf.state) != DISCONNECTING ==> pf.View() == old(pf.View())
    ensures !readable && !writable ==> pf.View() == old(pf.View())
    ensures old(pf.state) == CONNECTED ==>
      pf.taken == if readable then old(pf.taken) + Received(incoming, old(pf.Room())) else old(pf.taken)
    ensures old(pf.state) == CONNECTED && readable && !ReadsOn(incoming, obtained, old(pf.Room())) ==>
      pf.state == DISCONNECTING && pf.server.sent == old(pf.server.sent)
    ensures old(pf.state) == CONNECTED && (readable ==> ReadsOn(incoming, obtained, old(pf.Room()))) && writable ==>
      |pf.server.sent| == |old(pf.server.sent)| + Leaves(old(pf.replyQueue.Blocks()), pf.server.answers, old(pf.server.calls))
    ensures old(pf.state) == CONNECTED && (readable ==> ReadsOn(incoming, obtained, old(pf.Room()))) && writable ==>
      pf.state == if pf.server.Failed(old(pf.server.calls)) then DISCONNECTING else CONNECTED
    ensures old(pf.state) == CONNECTED && (readable ==> ReadsOn(incoming, obtained, old(pf.Room()))) && !writable ==>
      pf.state == CONNECTED && pf.server.sent == old(pf.server.sent)
    ensures old(pf.state) == DISCONNECTING && !(writable && old(pf.serverOpen)) ==> pf.View() == old(pf.View())
    ensures old(pf.state) == DISCONNECTING && writable && old(pf.serverOpen) ==> pf.state == DISCONNECTED
    ensures old(pf.state) == DISCONNECTING && writable && old(pf.serverOpen) ==>
      |pf.server.sent| == |old(pf.server.sent)| + Leaves(old(pf.replyQueue.Blocks()), pf.server.answers, old(pf.server.calls))
  {
    hide pf.Valid, Grows, Settled;
    ghost var before := pf.View();
    NoChange(before);
    if pf.state == CONNECTED {
      if readable {
        ReadLocal(pf, incoming, obtained);
      }
      if writable {
        ghost var between := pf.View();
        WriteLocal(pf);
        GrowsTwice(before, between, pf.View());
      }
    } else if pf.state == DISCONNECTING {
      if writable {
        if pf.CanFlushReplyQueue() {
          pf.FlushReplyQueue();
        }
      }
    }
  }

  /** The tunnel side of a connected forwarder: what TCP takes goes out, or the forwarder disconnects. */
  method WriteTunnel(pf: PortForwarder)
    requires pf.Valid() && pf.state == CONNECTED
    modifies pf, pf.forwardQueue, pf.forwardQueue.repr, pf.replyQueue, pf.client
    ensures pf.Valid() && Next(old(pf.View()), pf.View()) && old(pf.client) != null && pf.client == old(pf.client)
    ensures pf.Keeps(old(pf.client), old(pf.forwardQueue.repr), old(pf.replyQueue.repr))
    ensures pf.forwarded + pf.forwardQueue.Contents() == old(pf.forwarded) + old(pf.forwardQueue.Contents())
    ensures pf.forwardQueue.IsEmpty() || pf.client.sndBuf == 0 || pf.client.Refused(old(pf.client.calls))
    ensures pf.client.outputs == old(pf.client.outputs) + pf.client.Due(old(pf.client.calls), old(pf.client.unsent))
    ensures pf.state ==
            if pf.client.Verdict(old(pf.client.calls), old(pf.client.unsent)) == ErrOk then CONNECTED else DISCONNECTING
  {
    hide pf.Valid;
    pf.EndpointsFollowState();
    var ok := pf.Forward();
    if !ok {
      pf.Disconnect();
    }
  }

  /**
   * The tunneler's round over one forwarder, tunnel side: TCP is called only with a control block. A connection
   * that took too long is aborted; a connected forwarder stays connected unless TCP reports an error.
   */
  method ServeTunnel(pf: PortForwarder)
    requires pf.Valid()
    modifies pf, pf.forwardQueue, pf.forwardQueue.repr, pf.replyQueue, pf.client
    ensures pf.Valid() && Next(old(pf.View()), pf.View())
    ensures pf.Keeps(old(pf.client), old(pf.forwardQueue.repr), old(pf.replyQueue.repr))
    ensures old(pf.state) == CONNECTING ==>
      if old(pf.connectTimeout) then pf.state == DISCONNECTED else pf.View() == old(pf.View())
    ensures old(pf.state) == CONNECTED ==> old(pf.client) != null && pf.client == old(pf.client)
    ensures old(pf.state) == CONNECTED && !old(pf.HasDataToForward()) ==> pf.View() == old(pf.View())
    ensures old(pf.state) == CONNECTED == pf.state ==> pf.forwardQueue.IsEmpty() || pf.client.sndBuf == 0
    ensures old(pf.state) == CONNECTED == pf.state && old(pf.client.unsent) ==> pf.client.outputs > old(pf.client.outputs)
    ensures old(pf.state) == CONNECTED && old(pf.HasDataToForward()) ==>
      pf.forwarded + pf.forwardQueue.Contents() == old(pf.forwarded) + old(pf.forwardQueue.Contents())
    ensures old(pf.state) == CONNECTED && old(pf.HasDataToForward()) ==>
      pf.forwardQueue.IsEmpty() || pf.client.sndBuf == 0 || pf.client.Refused(old(pf.client.calls))
    ensures old(pf.state) == CONNECTED && old(pf.HasDataToForward()) ==>
      pf.client.outputs == old(pf.client.outputs) + pf.client.Due(old(pf.client.calls), old(pf.client.unsent))
    ensures old(pf.state) == CONNECTED && old(pf.HasDataToForward()) ==>
      pf.state == if pf.client.Verdict(old(pf.client.calls), old(pf.client.unsent)) == ErrOk then CONNECTED else DISCONNECTING
    ensures old(pf.state) == DISCONNECTING && old(pf.client) == null ==> pf.View() == old(pf.View())
    ensures old(pf.state) == DISCONNECTING && old(pf.client) != null ==>
      if pf.state == DISCONNECTED then pf.client == null && pf.forwardQueue.Contents() == []
      else pf.state == DISCONNECTING && !pf.forwardQueue.IsEmpty() && !old(pf.fflushTimeout)
    ensures old(pf.state) == DISCONNECTING && old(pf.client) != null && old(pf.forwardQueue.IsEmpty()) ==>
      pf.state == DISCONNECTED
    ensures old(pf.state) in {READY, FAILED, DISCONNECTED} ==> pf.View() == old(pf.View())
  {
    hide pf.Valid, Next;
    NoChange(pf.View());
    pf.EndpointsFollowState();
    if pf.HasConnectionTimedOut() {
      pf.Abort();
    }
    if pf.state == CONNECTED {
      if pf.HasDataToForward() {
        WriteTunnel(pf);
      }
    } else if pf.state == DISCONNECTING {
      if pf.CanFlushForwardQueue() {
        ghost var _ := pf.FlushForwardQueue();
      }
    }
  }

  /** A new buffer of at most the remaining space goes into a queue that fits; the failure branch is dead. */
  method PushNew(q: PBufQueue, data: seq<byte>)
    requires q.Valid() && q.Fits() && 0 < |data| <= q.RemainingSpace()
    modifies q, q.repr
    ensures q.Valid() && q.Fits() && q.Contents() == old(q.Contents()) + data
    ensures fresh(q.repr - old(q.repr))
  {
    hide Chain, Distinct, Apart, Bytes, q.Valid, q.Contents, q.Fits;
    q.SpaceLeft();
    CapacityBound(q);
    var buffer := new Pbuf(data);
    ghost var nodes := [buffer];
    SingleNode(q, buffer);
    var pushed := q.Push(buffer, nodes);
    if !pushed {
      assert false;
    }
  }

  lemma CapacityBound(q: PBufQueue)
    requires q.Valid()
    ensures q.capacity <= 0xFFFF
  {
  }

  lemma EmptyIsEmpty(q: PBufQueue)
    requires q.Valid()
    ensures q.IsEmpty() ==> q.Contents() == []
  {
  }

  lemma SingleNode(q: PBufQueue, p: Pbuf)
    requires q.Valid() && p !in q.repr && p.next == null && p.totLen == p.Len()
    ensures Chain([p]) && Bytes([p]) == p.payload && Apart(q.spine, [p])
  {
    NodesApart(q, [p]);
  }

  lemma NodesApart(q: PBufQueue, nodes: seq<Pbuf>)
    requires q.Valid() && (forall n :: n in nodes ==> n !in q.repr)
    ensures Apart(q.spine, nodes)
  {
    hide Chain, Distinct;
    forall i, j | 0 <= i < |q.spine| && 0 <= j < |nodes|
      ensures q.spine[i] != nodes[j]
    {
      assert q.spine[i] in q.spine && nodes[j] in nodes;
    }
  }
}
