/** Packet buffers and the queue that chains them. */
module PBufQueue {
  import opened Octets

  /** A packet buffer: a node of a singly linked chain. totLen counts this node and all after it. */
  class Pbuf {
    const payload: seq<byte>
    var totLen: nat
    var next: Pbuf?

    constructor (data: seq<byte>)
      ensures payload == data && totLen == |data| && next == null
    {
      payload := data;
      totLen := |data|;
      next := null;
    }

    function Len(): nat { |payload| }
  }

  /** The bytes of the nodes, in order. */
  ghost function Bytes(s: seq<Pbuf>): seq<byte> {
    if s == [] then [] else s[0].payload + Bytes(s[1..])
  }

  /** The node at position i, or the end of the chain. */
  ghost function NodeAt(s: seq<Pbuf>, i: nat): Pbuf? { if i < |s| then s[i] else null }

  ghost function TotalAt(s: seq<Pbuf>, i: nat): nat
    reads s
  {
    if i < |s| then s[i].totLen else 0
  }

  ghost function Nodes(s: seq<Pbuf>): set<Pbuf> { set n | n in s }

  ghost predicate Distinct(s: seq<Pbuf>) { forall i, j :: 0 <= i < j < |s| ==> s[i] != s[j] }

  ghost predicate Apart(s: seq<Pbuf>, t: seq<Pbuf>) {
    forall i, j :: 0 <= i < |s| && 0 <= j < |t| ==> s[i] != t[j]
  }

  /** s lists the nodes of a well-formed chain: every total is the node's length plus the rest. */
  ghost predicate Chain(s: seq<Pbuf>)
    reads s
  {
    && Distinct(s)
    && (forall i :: 0 <= i < |s| ==> s[i].next == NodeAt(s, i + 1))
    && (forall i :: 0 <= i < |s| ==> s[i].totLen == s[i].Len() + TotalAt(s, i + 1))
  }

  /** The total of a chain's head is the number of bytes in the chain. */
  lemma {:induction false} TotalIsLength(s: seq<Pbuf>)
    requires Chain(s)
    ensures TotalAt(s, 0) == |Bytes(s)|
  {
    if s != [] {
      ChainTail(s);
      TotalIsLength(s[1..]);
    }
  }

  lemma ChainTail(s: seq<Pbuf>)
    requires Chain(s) && s != []
    ensures Chain(s[1..]) && TotalAt(s[1..], 0) == TotalAt(s, 1)
  {
    var t := s[1..];
    forall i | 0 <= i < |t|
      ensures t[i].next == NodeAt(t, i + 1) && t[i].totLen == t[i].Len() + TotalAt(t, i + 1)
    {
      assert t[i] == s[i + 1];
    }
  }

  lemma {:induction false} BytesConcat(s: seq<Pbuf>, t: seq<Pbuf>)
    ensures Bytes(s + t) == Bytes(s) + Bytes(t)
  {
    if s == [] {
      assert s + t == t;
    } else {
      assert (s + t)[1..] == s[1..] + t;
      BytesConcat(s[1..], t);
    }
  }

  lemma SingleIsChain(p: Pbuf)
    requires p.next == null && p.totLen == p.Len()
    ensures Chain([p]) && Bytes([p]) == p.payload
  {
  }

  function Flatten(parts: seq<seq<byte>>): seq<byte> {
    if parts == [] then [] else parts[0] + Flatten(parts[1..])
  }

  lemma ChainCons(p: Pbuf, nodes: seq<Pbuf>)
    requires Chain(nodes) && p !in nodes && p.next == NodeAt(nodes, 0) && p.totLen == p.Len() + TotalAt(nodes, 0)
    ensures Chain([p] + nodes) && Bytes([p] + nodes) == p.payload + Bytes(nodes)
  {
    var s := [p] + nodes;
    assert s[1..] == nodes;
    forall i | 0 <= i < |s|
      ensures s[i].next == NodeAt(s, i + 1) && s[i].totLen == s[i].Len() + TotalAt(s, i + 1)
    {
      if i > 0 {
        assert s[i] == nodes[i - 1];
        assert NodeAt(s, i + 1) == NodeAt(nodes, i) && TotalAt(s, i + 1) == TotalAt(nodes, i);
      }
    }
  }

  /** A new chain of packet buffers. */
  method NewChain(parts: seq<seq<byte>>) returns (head: Pbuf?, ghost nodes: seq<Pbuf>)
    ensures Chain(nodes) && head == NodeAt(nodes, 0) && Bytes(nodes) == Flatten(parts)
    ensures head == null <==> parts == []
    ensures forall n :: n in nodes ==> fresh(n)
  {
    hide Chain;
    if parts == [] {
      EmptyChain();
      return null, [];
    }
    var rest, others := NewChain(parts[1..]);
    head := new Pbuf(parts[0]);
    head.next := rest;
    if rest != null {
      head.totLen := head.totLen + rest.totLen;
    }
    ChainCons(head, others);
    nodes := [head] + others;
  }

  lemma EmptyChain()
    ensures Chain([])
  {
  }

  /** The first half of pbuf_cat: walk to the last node of the chain, raising every total. */
  method RaiseTotals(h: Pbuf, add: nat, ghost hs: seq<Pbuf>) returns (last: Pbuf)
    requires Chain(hs) && hs != [] && hs[0] == h
    modifies hs`totLen
    ensures last == hs[|hs| - 1]
    ensures forall i :: 0 <= i < |hs| ==> hs[i].totLen == old(hs[i].totLen) + add
  {
    last := h;
    ghost var k := 0;
    while last.next != null
      invariant 0 <= k < |hs| && last == hs[k]
      invariant forall i :: 0 <= i < k ==> hs[i].totLen == old(hs[i].totLen) + add
      invariant forall i :: k <= i < |hs| ==> hs[i].totLen == old(hs[i].totLen)
      decreases |hs| - k
    {
      last.totLen := last.totLen + add;
      last := last.next;
      k := k + 1;
    }
    last.totLen := last.totLen + add;
  }

  /** pbuf_cat: the tail chain goes behind the head chain, whose totals grow by the tail's. */
  method Cat(h: Pbuf, t: Pbuf, ghost hs: seq<Pbuf>, ghost ts: seq<Pbuf>)
    requires Chain(hs) && Chain(ts) && hs != [] && ts != [] && hs[0] == h && ts[0] == t
    requires Apart(hs, ts)
    modifies hs
    ensures Chain(hs + ts)
    ensures h.totLen == old(h.totLen) + old(t.totLen)
  {
    var last := RaiseTotals(h, t.totLen, hs);
    last.next := t;
    assert Chain(ts);
    ghost var s := hs + ts;
    forall i | 0 <= i < |hs|
      ensures s[i].next == NodeAt(s, i + 1) && s[i].totLen == s[i].Len() + TotalAt(s, i + 1)
    {
      assert old(hs[i].totLen) == hs[i].Len() + old(TotalAt(hs, i + 1));
      assert old(hs[i].next) == NodeAt(hs, i + 1);
    }
    SuffixLinks(hs, ts);
    DistinctConcat(hs, ts);
  }

  lemma DistinctConcat(s: seq<Pbuf>, t: seq<Pbuf>)
    requires Distinct(s) && Distinct(t) && Apart(s, t)
    ensures Distinct(s + t)
  {
  }

  lemma SuffixLinks(hs: seq<Pbuf>, ts: seq<Pbuf>)
    requires Chain(ts)
    ensures forall i :: |hs| <= i < |hs + ts| ==>
      (hs + ts)[i].next == NodeAt(hs + ts, i + 1) && (hs + ts)[i].totLen == (hs + ts)[i].Len() + TotalAt(hs + ts, i + 1)
  {
    forall i | |hs| <= i < |hs + ts|
      ensures (hs + ts)[i].next == NodeAt(hs + ts, i + 1)
      ensures (hs + ts)[i].totLen == (hs + ts)[i].Len() + TotalAt(hs + ts, i + 1)
    {
      assert (hs + ts)[i] == ts[i - |hs|];
      assert TotalAt(hs + ts, i + 1) == TotalAt(ts, i - |hs| + 1);
    }
  }

  lemma BytesUnfold(s: seq<Pbuf>)
    requires s != []
    ensures Bytes(s) == s[0].payload + Bytes(s[1..]) && s[0].payload[0..] == s[0].payload
  {
  }

  lemma WholeBytes(s: seq<Pbuf>)
    ensures s != [] ==> s[0].payload[0..] + Bytes(s[1..]) == Bytes(s)
    ensures s == [] ==> Bytes(s) == []
  {
    if s != [] {
      BytesUnfold(s);
    }
  }

  lemma TailOfConcat(s: seq<Pbuf>, t: seq<Pbuf>)
    requires s != []
    ensures (s + t)[0] == s[0] && Bytes((s + t)[1..]) == Bytes(s[1..]) + Bytes(t)
  {
    assert (s + t)[1..] == s[1..] + t;
    BytesConcat(s[1..], t);
  }

  /** Cutting the head loose leaves a chain. */
  lemma TotalsAddUp(s: seq<Pbuf>)
    requires Chain(s) && s != []
    ensures s[0].totLen == s[0].Len() + TotalAt(s, 1) && s[0].next == NodeAt(s, 1)
    ensures s[0] !in s[1..]
  {
  }

  function Sum(lengths: seq<nat>): nat {
    if lengths == [] then 0 else lengths[0] + Sum(lengths[1..])
  }

  ghost function Lengths(s: seq<Pbuf>): seq<nat> {
    if s == [] then [] else [s[0].Len()] + Lengths(s[1..])
  }

  lemma {:induction false} LengthsAddUp(s: seq<Pbuf>)
    ensures Sum(Lengths(s)) == |Bytes(s)|
  {
    if s != [] {
      LengthsAddUp(s[1..]);
    }
  }

  lemma WholeLengths(s: seq<Pbuf>)
    ensures Lengths(s) == if s == [] then [] else [s[0].Len() - 0] + Lengths(s[1..])
  {
  }

  /** What is left of the blocks once n bytes of the first are gone. */
  function Shorten(blocks: seq<nat>, n: nat): seq<nat>
    requires blocks != [] && n <= blocks[0]
  {
    if n == blocks[0] then blocks[1..] else [blocks[0] - n] + blocks[1..]
  }

  const SIZE_MAX: nat := 0x1_0000_0000_0000_0000

  /** A byte queue over a chain of packet buffers, with a read offset into the head. */
  class PBufQueue {
    const capacity: nat
    var chain: Pbuf?
    var offset: nat
    ghost var spine: seq<Pbuf>
    ghost var repr: set<Pbuf>

    ghost predicate Linked()
      reads this, repr
    {
      && capacity <= 0xFFFF
      && (forall n :: n in spine ==> n in repr)
      && Chain(spine)
      && chain == NodeAt(spine, 0)
      && TotalAt(spine, 0) <= 0xFFFF
    }

    /** The read offset never rests at the end of the head. */
    ghost predicate Valid()
      reads this, repr
    {
      && Linked()
      && (chain == null ==> offset == 0)
      && (chain != null ==> offset == 0 || offset < chain.Len())
    }

    /** The bytes still to be read. */
    ghost function Contents(): seq<byte>
      reads this, repr
      requires Valid()
    {
      if spine == [] then [] else spine[0].payload[offset..] + Bytes(spine[1..])
    }

    /** The lengths of the contiguous blocks that are still to be read. */
    ghost function Blocks(): (b: seq<nat>)
      reads this, repr
      requires Valid()
      ensures b == [] <==> chain == null
    {
      if spine == [] then [] else [spine[0].Len() - offset] + Lengths(spine[1..])
    }

    lemma BlocksAddUp()
      requires Valid()
      ensures Sum(Blocks()) == |Contents()|
    {
      if spine != [] {
        LengthsAddUp(spine[1..]);
      }
    }

    constructor (requested: nat)
      requires requested <= 0xFFFF
      ensures Valid() && capacity == requested && Contents() == [] && spine == [] && repr == {}
    {
      capacity := requested;
      chain := null;
      offset := 0;
      spine := [];
      repr := {};
    }

    /** The total of the head, which still counts the bytes before the read offset. */
    function Size(): nat
      reads this, chain
    {
      if chain == null then 0 else chain.totLen
    }

    lemma SizeIsContentsPlusOffset()
      requires Valid()
      ensures Size() == |Contents()| + offset
    {
      if spine != [] {
        TotalIsLength(spine);
      }
    }

    function RemainingSpace(): nat
      reads this, chain
    {
      (capacity - Size()) % SIZE_MAX
    }

    predicate IsFull()
      reads this, chain
    {
      RemainingSpace() == 0
    }

    /** The queue holds no more than its capacity, as long as no single larger buffer was pushed when empty. */
    ghost predicate Fits()
      reads this, repr
      requires Valid()
    {
      Size() <= capacity
    }

    /** A chain of so many bytes would be taken. */
    predicate Takes(total: nat)
      reads this, chain
    {
      total > 0 && Size() != capacity && (chain != null ==> Size() + total <= capacity)
    }

    /** The unsigned difference is the space left exactly as long as the queue fits; otherwise it wraps. */
    lemma SpaceLeft()
      requires Valid()
      ensures Fits() <==> Size() + RemainingSpace() == capacity
      ensures !Fits() ==> RemainingSpace() > 0xFFFF
    {
    }

    lemma SpaceWraps()
      requires Size() == capacity + 1 && capacity <= 0xFFFF
      ensures RemainingSpace() == SIZE_MAX - 1 && !IsFull()
    {
    }

    predicate IsEmpty()
      reads this
    {
      chain == null
    }

    method Clear()
      requires Valid()
      modifies this
      ensures Valid() && Fits() && IsEmpty() && Contents() == [] && spine == [] && repr == old(repr)
    {
      if chain != null {
        chain := null;
        offset := 0;
        spine := [];
      }
    }

    /** All or nothing: the whole buffer is appended, or nothing changes. */
    method Push(buffer: Pbuf?, ghost nodes: seq<Pbuf>) returns (rc: bool)
      requires Valid() && Chain(nodes) && buffer == NodeAt(nodes, 0) && Apart(spine, nodes)
      requires TotalAt(nodes, 0) <= 0xFFFF
      modifies this, repr
      ensures Valid()
      ensures rc == (buffer != null && old(Takes(buffer.totLen)))
      ensures spine == if rc then old(spine) + nodes else old(spine)
      ensures repr == if rc then old(repr) + Nodes(nodes) else old(repr)
      ensures !rc ==> Fits() == old(Fits())
      ensures rc && old(chain) == null ==> Fits() == (TotalAt(nodes, 0) <= capacity)
      ensures rc && old(chain) != null ==> Fits() && old(Fits())
      ensures Contents() == if rc then old(Contents()) + Bytes(nodes) else old(Contents())
    {
      hide Chain, Distinct, Apart, Bytes;
      rc := false;
      assert IsFull() <==> Size() == capacity;
      if buffer != null && buffer.totLen > 0 && !IsFull() {
        if chain != null {
          if Size() + buffer.totLen <= capacity {
            Cat(chain, buffer, spine, nodes);
            TailOfConcat(spine, nodes);
            spine := spine + nodes;
            repr := repr + Nodes(nodes);
            rc := true;
          }
        } else {
          chain := buffer;
          offset := 0;
          spine := nodes;
          repr := repr + Nodes(nodes);
          rc := true;
          assert old(spine) == [] && [] + nodes == nodes;
          WholeBytes(nodes);
        }
      }
    }

    /** Takes the head out of the chain. */
    method Pop() returns (head: Pbuf?)
      requires Linked()
      modifies this, repr
      ensures Linked() && offset == (if head == null then old(offset) else 0) && head == old(chain)
      ensures spine == (if head == null then old(spine) else old(spine)[1..]) && repr == old(repr)
      ensures Size() <= old(Size())
      ensures head != null ==> head.next == null && head.totLen == head.Len()
    {
      hide Chain, Distinct, Apart, Bytes;
      head := chain;
      if chain != null {
        ChainTail(spine);
        TotalsAddUp(spine);
        chain := chain.next;
        offset := 0;
        spine := spine[1..];
        head.totLen := head.Len();
        head.next := null;
      }
    }

    /** The first contiguous block of at most len bytes. */
    method GetCblock(len: nat) returns (block: seq<byte>)
      requires Valid()
      ensures block <= Contents()
      ensures chain == null ==> block == []
      ensures chain != null ==> |block| == if len < chain.Len() - offset then len else chain.Len() - offset
    {
      hide Chain, Distinct, Apart, Bytes;
      if IsEmpty() {
        block := [];
      } else {
        var available := chain.Len() - offset;
        var blockLen := if len < available then len else available;
        TotalsAddUp(spine);
        block := chain.payload[offset..offset + blockLen % 0x10000];
      }
    }

    /** All that is contiguous: the rest of the head. */
    method GetWholeCblock() returns (block: seq<byte>)
      requires Valid() && chain != null
      ensures block <= Contents() && offset + |block| == chain.Len() && |block| == Blocks()[0]
    {
      block := GetCblock(chain.Len() - offset);
    }

    /** Moves the read offset inside the head, dropping the head once it is used up. */
    method Move(len: nat) returns (rc: bool)
      requires Valid()
      modifies this, repr
      ensures Valid() && repr == old(repr) && (old(Fits()) ==> Fits())
      ensures rc <==> old(chain) != null && old(offset) + len <= old(chain).Len()
      ensures rc ==> len <= |old(Contents())| && Contents() == old(Contents())[len..]
      ensures rc ==> len <= old(Blocks())[0] && Blocks() == Shorten(old(Blocks()), len)
      ensures rc ==> spine == if old(offset) + len == old(chain).Len() then old(spine)[1..] else old(spine)
      ensures !rc ==> Contents() == old(Contents()) && spine == old(spine)
    {
      hide Chain, Distinct, Apart, Bytes, Lengths;
      rc := false;
      ghost var blocks := Blocks();
      if chain != null && offset + len <= chain.Len() {
        ghost var head, rest := chain.payload[offset..], Bytes(spine[1..]);
        assert (head + rest)[len..] == head[len..] + rest;
        assert blocks[1..] == Lengths(spine[1..]);
        offset := offset + len;
        if chain.Len() - offset == 0 {
          var _ := Pop();
          WholeBytes(spine);
          WholeLengths(spine);
        }
        rc := true;
      }
    }
  }

  /**
   * The capacity can be exceeded: an empty queue takes a buffer larger than itself. The space left then wraps,
   * and as the size is not equal to the capacity the queue does not even count as full.
   */
  method PushTooMuch() returns (q: PBufQueue)
    ensures fresh(q) && q.Valid() && q.capacity == 1 && q.Contents() == [7, 7]
    ensures !q.Fits() && q.Size() == 2 && q.RemainingSpace() == 0xFFFF_FFFF_FFFF_FFFF && !q.IsFull()
  {
    hide Chain, Distinct, Bytes, q.Contents;
    q := new PBufQueue(1);
    var buffer := new Pbuf([7, 7]);
    ghost var nodes := [buffer];
    SingleIsChain(buffer);
    assert q.Size() == 0;
    var pushed := q.Push(buffer, nodes);
    assert q.spine == [] + [buffer];
    assert q.Size() == 2;
    q.SpaceWraps();
  }
}
