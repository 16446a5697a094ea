/** The tunnel byte path end to end: frame, queue, partial sends, arbitrary chunks, packets again. */
module PppLink {
  import opened Octets
  import opened PBufQueue
  import opened OutputQueue
  import opened PppOssl

  datatype WriteErr = WriteOk | WriteBuf | WriteMem | WriteIf

  const PPP_ALLSTATIONS: byte := 0xFF
  const PPP_UI: byte := 0x03

  lemma BytesStep(nodes: seq<Pbuf>, k: nat)
    requires k < |nodes|
    ensures Bytes(nodes[..k + 1]) == Bytes(nodes[..k]) + nodes[k].payload
  {
    assert nodes[..k + 1] == nodes[..k] + [nodes[k]];
    BytesConcat(nodes[..k], [nodes[k]]);
  }

  lemma NothingYet(nodes: seq<Pbuf>)
    ensures Bytes(nodes[..0]) == []
  {
  }

  /** The payload of a chain of packet buffers, copied behind the frame header. */
  method CopyChain(header: seq<byte>, pbuf: Pbuf, ghost nodes: seq<Pbuf>) returns (frame: seq<byte>)
    requires Chain(nodes) && pbuf == NodeAt(nodes, 0)
    ensures frame == header + Bytes(nodes)
  {
    hide Bytes, Distinct;
    NothingYet(nodes);
    frame := header;
    var p: Pbuf? := pbuf;
    ghost var k := 0;
    while p != null
      invariant k <= |nodes| && p == NodeAt(nodes, k)
      invariant frame == header + Bytes(nodes[..k])
      decreases |nodes| - k
    {
      BytesStep(nodes, k);
      Regroup(header, Bytes(nodes[..k]), p.payload);
      frame := frame + p.payload;
      p := p.next;
      k := k + 1;
    }
    assert nodes[..k] == nodes;
  }

  /** One frame around the packet, or nothing at all in the queue. */
  method Write(q: PBufQueue, pbuf: Pbuf?, ghost nodes: seq<Pbuf>, obtained: bool) returns (err: WriteErr)
    requires q.Valid() && Chain(nodes) && pbuf == NodeAt(nodes, 0)
    requires TotalAt(nodes, 0) + HEADER_SIZE <= 0xFFFF
    requires pbuf !in q.repr
    modifies q, q.repr
    ensures q.Valid() && (forall n :: n in q.repr && n !in old(q.repr) ==> fresh(n))
    ensures err == WriteBuf <==> pbuf == null
    ensures pbuf != null && |Bytes(nodes)| == 0 ==> err == WriteOk
    ensures pbuf != null && |Bytes(nodes)| > 0 ==>
      err == if !obtained then WriteMem else if old(q.Takes(|Bytes(nodes)| + HEADER_SIZE)) then WriteOk else WriteIf
    ensures |Bytes(nodes)| + HEADER_SIZE <= 0xFFFF
    ensures q.Contents() == old(q.Contents()) +
      if err == WriteOk && |Bytes(nodes)| > 0 then Frame(Bytes(nodes)) else []
  {
    hide Chain, Distinct, Apart, q.Valid, q.Contents, q.Fits;
    TotalIsLength(nodes);
    err := WriteOk;
    if pbuf == null {
      err := WriteBuf;
    } else if pbuf.totLen > 0 {
      if !obtained {
        return WriteMem;
      }
      var payload := CopyChain(Be16(pbuf.totLen + HEADER_SIZE) + [0x50, 0x50] + Be16(pbuf.totLen), pbuf, nodes);
      var frame := new Pbuf(payload);
      ghost var single := [frame];
      SingleIsChain(frame);
      NewIsApart(q, frame);
      var pushed := q.Push(frame, single);
      var lp := if pushed then frame.Len() else 0;
      if lp != pbuf.totLen + HEADER_SIZE {
        err := WriteIf;
      }
    }
  }

  lemma NewIsApart(q: PBufQueue, frame: Pbuf)
    requires q.Valid() && frame !in q.repr
    ensures Apart(q.spine, [frame])
  {
  }

  lemma NewNodeIsApart(nb: Pbuf, nodes: seq<Pbuf>)
    requires nb !in nodes
    ensures Apart([nb], nodes)
  {
  }

  /** pppossl_netif_output: four bytes of PPP header go in front of what lwIP hands over. */
  method NetifOutput(q: PBufQueue, pb: Pbuf, ghost nodes: seq<Pbuf>, protocol: nat, obtained: bool,
                     obtainedFrame: bool) returns (err: WriteErr)
    requires q.Valid() && Chain(nodes) && pb == NodeAt(nodes, 0) && protocol < 0x10000
    requires TotalAt(nodes, 0) + 4 + HEADER_SIZE <= 0xFFFF
    modifies q, q.repr
    ensures q.Valid() && (forall n :: n in q.repr && n !in old(q.repr) ==> fresh(n))
    ensures err == if !obtained || !obtainedFrame then WriteMem
                   else if old(q.Takes(|Bytes(nodes)| + 4 + HEADER_SIZE)) then WriteOk else WriteIf
    ensures |Bytes(nodes)| + 4 + HEADER_SIZE <= 0xFFFF
    ensures q.Contents() == old(q.Contents()) +
      if err == WriteOk then Frame([0xFF, 0x03] + Be16(protocol) + Bytes(nodes)) else []
  {
    hide Chain, Distinct, Apart, q.Valid, q.Contents, q.Fits, Frame;
    TotalIsLength(nodes);
    if !obtained {
      return WriteMem;
    }
    var nb := new Pbuf([PPP_ALLSTATIONS, PPP_UI, protocol / 256, protocol % 256]);
    ghost var head := [nb];
    SingleIsChain(nb);
    NewNodeIsApart(nb, nodes);
    Cat(nb, pb, head, nodes);
    BytesConcat(head, nodes);
    assert [PPP_ALLSTATIONS, PPP_UI, protocol / 256, protocol % 256] == [PPP_ALLSTATIONS, PPP_UI] + Be16(protocol);
    err := Write(q, nb, head + nodes, obtainedFrame);
  }

  lemma StreamOfOne(p: seq<byte>)
    requires 1 <= |p| && |p| + HEADER_SIZE < 0x10000
    ensures Sendable([p]) && Stream([p]) == Frame(p)
  {
    hide Frame;
    assert [p][1..] == [] && Frame(p) + [] == Frame(p);
  }

  /** What can be seen of the link: the packets at both ends, that nothing is on the way, that it is closed. */
  datatype Delivery = Delivery(accepted: seq<seq<byte>>, delivered: seq<seq<byte>>, idle: bool, closed: bool)

  /**
   * The packets delivered are a prefix of those accepted, and all of them once nothing is on the way. The
   * receiver closes the link only if a packet that is too large was accepted, behind everything that was
   * accepted before that one.
   */
  predicate InOrder(d: Delivery) {
    && d.delivered <= Readable(d.accepted) <= d.accepted
    && (d.closed ==> d.delivered == Readable(d.accepted) != d.accepted)
    && (d.idle ==> d.delivered == Readable(d.accepted))
    && (d.idle ==> (d.closed <==> d.delivered != d.accepted))
  }

  /**
   * Both ends of the tunnel: the queue and socket of the sender, and the parser fed with what the
   * socket carried. accepted lists the packets whose frames were queued.
   */
  class Link {
    const queue: PBufQueue
    const socket: Socket
    const receiver: Receiver
    ghost var accepted: seq<seq<byte>>
    var arrived: nat
    /** The receiver has rejected what it read, so that the tunnel is shut down. */
    var closed: bool

    ghost predicate Valid()
      reads this, queue, queue.repr, socket, receiver
    {
      && queue.Valid() && receiver.Valid() && Sendable(accepted)
      && arrived <= |socket.sent|
      && Stream(accepted) == socket.sent + queue.Contents()
      && Parse(socket.sent[..arrived]).delivered == receiver.delivered
      && (closed ==> Parse(socket.sent[..arrived]).err != PppErrNone)
      && (!closed ==> Parse(socket.sent[..arrived]) == Parsed(receiver.delivered, receiver.Pending(), PppErrNone))
    }

    ghost function View(): Delivery
      reads this, queue, queue.repr, socket, receiver
      requires Valid()
    {
      Delivery(accepted, receiver.delivered, queue.Contents() == [] && (arrived == |socket.sent| || closed), closed)
    }

    constructor (capacity: nat, answers: nat -> Answer)
      requires capacity <= 0xFFFF
      ensures Valid() && View() == Delivery([], [], true, false)
      ensures queue.capacity == capacity && socket.answers == answers
      ensures fresh(queue) && fresh(socket) && fresh(receiver) && queue.repr == {}
    {
      queue := new PBufQueue(capacity);
      socket := new Socket(answers);
      receiver := new Receiver();
      accepted := [];
      arrived := 0;
      closed := false;
    }

    /** PPP sends a packet: it is queued whole and counted as accepted, or leaves no trace. */
    method Send(pbuf: Pbuf?, ghost nodes: seq<Pbuf>, obtained: bool) returns (err: WriteErr)
      requires Valid() && Chain(nodes) && pbuf == NodeAt(nodes, 0) && pbuf !in queue.repr
      requires TotalAt(nodes, 0) + HEADER_SIZE <= 0xFFFF
      modifies this`accepted, queue, queue.repr
      ensures Valid() && receiver.delivered == old(receiver.delivered)
      ensures Bytes(nodes) != [] ==> (err == WriteOk <==> obtained && old(queue.Takes(|Bytes(nodes)| + HEADER_SIZE)))
      ensures accepted == if err == WriteOk && Bytes(nodes) != [] then old(accepted) + [Bytes(nodes)] else old(accepted)
      ensures err != WriteOk ==> queue.Contents() == old(queue.Contents())
      ensures fresh(queue.repr - old(queue.repr))
    {
      hide Distinct, Chain, Apart, queue.Valid, queue.Contents, queue.Fits, receiver.Valid, receiver.Pending,
              Parse, Frame, Stream;
      TotalIsLength(nodes);
      ghost var before, p := queue.Contents(), Bytes(nodes);
      err := Write(queue, pbuf, nodes, obtained);
      assert before + [] == before;
      if err == WriteOk && p != [] {
        StreamOfOne(p);
        StreamConcat(accepted, [p]);
        assert socket.sent + (before + Frame(p)) == (socket.sent + before) + Frame(p);
        accepted := accepted + [p];
      }
    }

    /** The tunnel socket takes what it wants of the queue. */
    method Drain() returns (rc: int, written: nat)
      requires Valid()
      modifies queue, queue.repr, socket
      ensures Valid() && accepted == old(accepted) && receiver.delivered == old(receiver.delivered)
      ensures |socket.sent| == |old(socket.sent)| + Leaves(old(queue.Blocks()), socket.answers, old(socket.calls))
      ensures queue.repr == old(queue.repr)
    {
      hide Distinct, Chain, Apart, queue.Valid, queue.Contents, queue.Fits, receiver.Valid, receiver.Pending,
              Parse, Frame, Stream;
      ghost var before := socket.sent;
      rc, written := WriteSocket(queue, socket);
      assert socket.sent[..arrived] == before[..arrived];
      assert Stream(accepted) == socket.sent + queue.Contents();
    }

    /** Any next piece of what was sent arrives at the other end, which closes the link if it rejects it. */
    method Arrive(chunk: seq<byte>) returns (err: PppErr)
      requires Valid() && !closed
      requires arrived + |chunk| <= |socket.sent| && chunk == socket.sent[arrived..arrived + |chunk|]
      modifies this`arrived, this`closed, receiver
      ensures Valid() && accepted == old(accepted) && old(receiver.delivered) <= receiver.delivered
      ensures arrived == old(arrived) + |chunk| && (closed <==> err != PppErrNone)
    {
      hide queue.Valid, queue.Contents, queue.Fits, receiver.Valid, receiver.Pending, Parse, Frame, Stream;
      ghost var w := socket.sent[..arrived];
      err := receiver.Input(chunk);
      ParseResumes(w, chunk);
      arrived := arrived + |chunk|;
      assert socket.sent[..arrived] == w + chunk;
      closed := err != PppErrNone;
    }

    /** In every state of the link its packets are in order. */
    lemma DeliveredIsPrefix()
      requires Valid()
      ensures InOrder(View())
    {
      hide Parse, Frame, Stream;
      var w := socket.sent[..arrived];
      assert w <= Stream(accepted);
      PrefixParses(accepted, w);
      if queue.Contents() == [] && arrived == |socket.sent| {
        assert w == Stream(accepted);
      }
    }
  }

  datatype LinkEvent = SendPacket(parts: seq<seq<byte>>, obtained: bool) | SocketWritable | SocketReadable(space: nat)

  /** What an event is judged by. */
  datatype Facts = Facts(accepted: seq<seq<byte>>, blocks: seq<nat>, size: nat, sent: nat, calls: nat, arrived: nat,
                         closed: bool)

  ghost function FactsOf(link: Link): Facts
    requires link.Valid()
    reads link, link.queue, link.queue.repr, link.queue.chain, link.socket, link.receiver
  {
    Facts(link.accepted, link.queue.Blocks(), link.queue.Size(), |link.socket.sent|, link.socket.calls, link.arrived,
          link.closed)
  }

  /** The queue takes a packet with its header: it has room for it, or nothing in it. */
  predicate Taken(f: Facts, packet: seq<byte>, capacity: nat) {
    && packet != [] && f.size != capacity
    && (f.blocks != [] ==> f.size + |packet| + HEADER_SIZE <= capacity)
  }

  /** What an event does: a packet is accepted or not, so much is sent, so much arrives. */
  predicate Happened(capacity: nat, answers: nat -> Answer, e: LinkEvent, f: Facts, g: Facts) {
    match e
    case SendPacket(parts, obtained) =>
      var packet := Flatten(parts);
      && (|packet| + HEADER_SIZE <= 0xFFFF ==>
           g.accepted == if obtained && Taken(f, packet, capacity) then f.accepted + [packet] else f.accepted)
      && g.sent == f.sent && g.arrived == f.arrived
    case SocketWritable =>
      g.accepted == f.accepted && g.sent == f.sent + Leaves(f.blocks, answers, f.calls) && g.arrived == f.arrived
    case SocketReadable(space) =>
      && g.accepted == f.accepted && g.sent == f.sent && f.arrived <= f.sent
      && g.arrived == if f.closed then f.arrived else if space < f.sent - f.arrived then f.arrived + space else f.sent
  }

  lemma SameLink(link: Link)
    requires link.Valid()
    ensures FactsOf(link).accepted == link.View().accepted && FactsOf(link).closed == link.View().closed
  {
  }

  /** What holds between one moment and the next. */
  predicate Onwards(d: Delivery, e: Delivery) {
    d.accepted <= e.accepted && d.delivered <= e.delivered && (d.closed ==> e.closed && e.delivered == d.delivered)
  }

  /** One event: a packet for the tunnel, or a socket that can be written to or read from. */
  method Step(link: Link, event: LinkEvent)
    requires link.Valid()
    modifies link, link.queue, link.queue.repr, link.socket, link.receiver
    ensures link.Valid() && Onwards(old(link.View()), link.View()) && fresh(link.queue.repr - old(link.queue.repr))
    ensures Happened(link.queue.capacity, link.socket.answers, event, old(FactsOf(link)), FactsOf(link))
  {
    hide Leaves, Sendable, Chain, Bytes, Distinct, PBufQueue.Valid, PBufQueue.Contents, Receiver.Valid, Receiver.Pending,
            Parse, Stream, Frame;
    match event
    case SendPacket(parts, obtained) =>
      var pbuf, nodes := NewChain(parts);
      TotalIsLength(nodes);
      assert pbuf != null ==> pbuf in nodes;
      if pbuf == null || pbuf.totLen + HEADER_SIZE <= 0xFFFF {
        var _ := link.Send(pbuf, nodes, obtained);
      }
    case SocketWritable =>
      var _, _ := link.Drain();
    case SocketReadable(space) =>
      if !link.closed {
        var rest := link.socket.sent[link.arrived..];
        var _ := link.Arrive(rest[..if space < |rest| then space else |rest|]);
      }
  }

  /**
   * From the constructor on, over every sequence of packets, socket answers and cuts of the stream: each event
   * has its effect, and the packets delivered so far are a prefix of those accepted so far, after every event.
   */
  method Run(capacity: nat, answers: nat -> Answer, events: seq<LinkEvent>)
      returns (ghost trace: seq<Delivery>, ghost facts: seq<Facts>)
    requires capacity <= 0xFFFF
    ensures |trace| == |events| + 1 && trace[0] == Delivery([], [], true, false)
    ensures forall i :: 0 <= i < |trace| ==> InOrder(trace[i])
    ensures forall i :: 0 <= i < |events| ==> Onwards(trace[i], trace[i + 1])
    ensures |facts| == |events| + 1
    ensures forall i :: 0 <= i < |trace| ==> facts[i].accepted == trace[i].accepted && facts[i].closed == trace[i].closed
    ensures forall i :: 0 <= i < |events| ==> Happened(capacity, answers, events[i], facts[i], facts[i + 1])
  {
    hide InOrder, Onwards, Happened, FactsOf, Link.Valid, Link.View;
    var link := new Link(capacity, answers);
    trace, facts := [link.View()], [FactsOf(link)];
    link.DeliveredIsPrefix();
    SameLink(link);
    for k := 0 to |events|
      invariant fresh(link) && fresh(link.queue) && fresh(link.socket) && fresh(link.receiver) && fresh(link.queue.repr)
      invariant link.Valid() && |trace| == k + 1 && trace[k] == link.View()
      invariant trace[0] == Delivery([], [], true, false)
      invariant |facts| == k + 1 && facts[k] == FactsOf(link)
      invariant link.queue.capacity == capacity && link.socket.answers == answers
      invariant forall i :: 0 <= i <= k ==> facts[i].accepted == trace[i].accepted && facts[i].closed == trace[i].closed
      invariant forall i :: 0 <= i < k ==> Happened(capacity, answers, events[i], facts[i], facts[i + 1])
      invariant forall i :: 0 <= i <= k ==> InOrder(trace[i])
      invariant forall i :: 0 <= i < k ==> Onwards(trace[i], trace[i + 1])
    {
      Step(link, events[k]);
      link.DeliveredIsPrefix();
      SameLink(link);
      trace := trace + [link.View()];
      facts := facts + [FactsOf(link)];
    }
  }
}
