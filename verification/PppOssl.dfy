/** PPP packets inside FortiGate frames: the writer, and the parser that meets arbitrary chunks. */
module PppOssl {
  import opened Octets
  import opened PBufQueue

  const HEADER_SIZE: nat := 6
  const MAX_FRAME: nat := 16 * 1024

  datatype PppErr = PppErrNone | PppErrProtocol | PppErrAlloc

  function Be16(n: nat): seq<byte>
    requires n < 0x10000
  {
    [n / 256, n % 256]
  }

  function FromBe16(hi: byte, lo: byte): nat { hi * 256 + lo }

  /** The frame around one packet: its size with and without the header, around a fixed tag. */
  function Frame(p: seq<byte>): seq<byte>
    requires |p| + HEADER_SIZE < 0x10000
  {
    Be16(|p| + HEADER_SIZE) + [0x50, 0x50] + Be16(|p|) + p
  }

  function FrameSize(h: seq<byte>): nat
    requires |h| == HEADER_SIZE
  {
    FromBe16(h[4], h[5])
  }

  /** The consistency and size checks on a received header. */
  predicate GoodHeader(h: seq<byte>)
    requires |h| == HEADER_SIZE
  {
    && FromBe16(h[0], h[1]) == FrameSize(h) + HEADER_SIZE
    && h[2] == 0x50 && h[3] == 0x50
    && FrameSize(h) <= MAX_FRAME
  }

  /** What a byte stream means: packets, then either the start of an unfinished frame or a rejection. */
  datatype Parsed = Parsed(delivered: seq<seq<byte>>, rest: seq<byte>, err: PppErr)

  /** A frame without payload finds no room for its payload and is rejected at the byte that follows it. */
  function Parse(s: seq<byte>): Parsed
    decreases |s|
  {
    if |s| < HEADER_SIZE then Parsed([], s, PppErrNone)
    else if !GoodHeader(s[..HEADER_SIZE]) then Parsed([], [], PppErrProtocol)
    else
      var n := FrameSize(s[..HEADER_SIZE]);
      if |s| == HEADER_SIZE then Parsed([], s, PppErrNone)
      else if n == 0 then Parsed([], [], PppErrAlloc)
      else if |s| < HEADER_SIZE + n then Parsed([], s, PppErrNone)
      else
        var more := Parse(s[HEADER_SIZE + n..]);
        Parsed([s[HEADER_SIZE..HEADER_SIZE + n]] + more.delivered, more.rest, more.err)
  }

  /** a begins with a whole frame. */
  predicate Complete(a: seq<byte>) {
    && |a| > HEADER_SIZE
    && GoodHeader(a[..HEADER_SIZE])
    && 0 < FrameSize(a[..HEADER_SIZE]) <= |a| - HEADER_SIZE
  }

  /** The end of the first frame. */
  function End(a: seq<byte>): (e: nat)
    requires Complete(a)
    ensures HEADER_SIZE < e <= |a|
  {
    HEADER_SIZE + FrameSize(a[..HEADER_SIZE])
  }

  lemma ParseOne(a: seq<byte>)
    requires Complete(a)
    ensures Parse(a) == Parsed([a[HEADER_SIZE..End(a)]] + Parse(a[End(a)..]).delivered,
                               Parse(a[End(a)..]).rest, Parse(a[End(a)..]).err)
  {
  }

  lemma ParseNone(a: seq<byte>)
    requires !Complete(a)
    ensures Parse(a) == Parsed([], if Parse(a).err == PppErrNone then a else [], Parse(a).err)
  {
  }

  lemma CompleteExtends(a: seq<byte>, b: seq<byte>)
    requires Complete(a)
    ensures Complete(a + b) && End(a + b) == End(a)
    ensures (a + b)[HEADER_SIZE..End(a)] == a[HEADER_SIZE..End(a)] && (a + b)[End(a)..] == a[End(a)..] + b
  {
    assert (a + b)[..HEADER_SIZE] == a[..HEADER_SIZE];
  }

  /** Parsing may stop between any two bytes and go on from the unfinished frame. */
  lemma {:induction false} ParseResumes(a: seq<byte>, b: seq<byte>)
    requires Parse(a).err == PppErrNone
    ensures var more := Parse(Parse(a).rest + b);
      Parse(a + b) == Parsed(Parse(a).delivered + more.delivered, more.rest, more.err)
    decreases |a|
  {
    hide Parse, Complete, End;
    if Complete(a) {
      ParseOne(a);
      ParseResumes(a[End(a)..], b);
      CompleteExtends(a, b);
      ParseOne(a + b);
    } else {
      ParseNone(a);
      assert [] + Parse(a + b).delivered == Parse(a + b).delivered;
    }
  }

  /** Packets for which the writer makes a frame. */
  predicate Sendable(ps: seq<seq<byte>>) {
    forall i :: 0 <= i < |ps| ==> 1 <= |ps[i]| && |ps[i]| + HEADER_SIZE < 0x10000
  }

  /** The packets in front of the first that is too large for the parser. */
  function Readable(ps: seq<seq<byte>>): (front: seq<seq<byte>>)
    ensures front <= ps
    ensures front == ps <==> forall i :: 0 <= i < |ps| ==> |ps[i]| <= MAX_FRAME
  {
    if ps == [] || |ps[0]| > MAX_FRAME then [] else [ps[0]] + Readable(ps[1..])
  }

  /** The frames of the packets, one after the other. */
  function Stream(ps: seq<seq<byte>>): seq<byte>
    requires Sendable(ps)
  {
    if ps == [] then [] else Frame(ps[0]) + Stream(ps[1..])
  }

  lemma {:induction false} StreamConcat(ps: seq<seq<byte>>, qs: seq<seq<byte>>)
    requires Sendable(ps) && Sendable(qs)
    ensures Sendable(ps + qs) && Stream(ps + qs) == Stream(ps) + Stream(qs)
  {
    hide Frame;
    if ps == [] {
      assert ps + qs == qs;
    } else {
      StreamConcat(ps[1..], qs);
      assert (ps + qs)[1..] == ps[1..] + qs;
    }
  }

  /** The six bytes of a header, and that the parser takes it and finds the payload behind it. */
  lemma FrameHeader(p: seq<byte>, s: seq<byte>)
    requires 1 <= |p| <= 16384
    ensures var n := |p|;
      Frame(p)[..6] == [(n + 6) / 256, (n + 6) % 256, 0x50, 0x50, n / 256, n % 256] && Frame(p)[6..] == p
    ensures var f := Frame(p) + s;
      && |Frame(p)| == HEADER_SIZE + |p|
      && Complete(f) && End(f) == HEADER_SIZE + |p| && f[HEADER_SIZE..End(f)] == p && f[End(f)..] == s
  {
  }

  /** A frame that has not arrived whole is kept, and nothing of it is delivered. */
  lemma PartialFrame(p: seq<byte>, w: seq<byte>)
    requires 1 <= |p| <= MAX_FRAME && w <= Frame(p) && w != Frame(p)
    ensures Parse(w) == Parsed([], w, PppErrNone)
  {
    if |w| >= HEADER_SIZE {
      assert w[..HEADER_SIZE] == Frame(p)[..HEADER_SIZE];
      FrameHeader(p, []);
      assert Frame(p) + [] == Frame(p);
    }
  }

  /** A frame that is too large is rejected as soon as its header is there. */
  lemma LargeFrame(p: seq<byte>, rest: seq<byte>, w: seq<byte>)
    requires 16384 < |p| && |p| + HEADER_SIZE < 0x10000 && w <= Frame(p) + rest
    ensures |Frame(p)| > HEADER_SIZE
    ensures Parse(w) == if |w| < HEADER_SIZE then Parsed([], w, PppErrNone) else Parsed([], [], PppErrProtocol)
  {
    if |w| >= HEADER_SIZE {
      assert w[..HEADER_SIZE] == Frame(p)[..HEADER_SIZE];
    }
  }

  /**
   * What becomes of a part w of the frames: exactly the packets that arrived whole are delivered, and the rest
   * is kept. The stream is rejected if and only if the header of a frame that is too large has arrived, when
   * all packets in front of it have been delivered.
   */
  predicate Outcome(ps: seq<seq<byte>>, w: seq<byte>, r: Parsed)
    requires Sendable(ps)
  {
    && r.delivered <= Readable(ps) && Sendable(r.delivered) && Sendable(Readable(ps))
    && (r.err == PppErrNone ==> w == Stream(r.delivered) + r.rest)
    && (r.err != PppErrNone ==> r.err == PppErrProtocol && r.delivered == Readable(ps))
    && (r.err != PppErrNone <==> Readable(ps) != ps && |w| >= |Stream(Readable(ps))| + HEADER_SIZE)
    && (w == Stream(ps) ==> r.delivered == Readable(ps) && (r.err == PppErrNone ==> r.rest == [] && r.delivered == ps))
  }

  lemma OutcomeOfLarge(ps: seq<seq<byte>>, w: seq<byte>)
    requires Sendable(ps) && w <= Stream(ps) && ps != [] && |ps[0]| > MAX_FRAME
    ensures Outcome(ps, w, Parse(w))
  {
    hide Parse, Frame, Stream, Sendable, Readable;
    StreamUnfolds(ps);
    StreamUnfolds([]);
    LargeFrame(ps[0], Stream(ps[1..]), w);
  }

  lemma OutcomeOfPart(ps: seq<seq<byte>>, w: seq<byte>)
    requires Sendable(ps) && w <= Stream(ps) && ps != [] && |ps[0]| <= MAX_FRAME && |w| < |Frame(ps[0])|
    requires Outcome(ps[1..], [], Parse([]))
    ensures Outcome(ps, w, Parse(w))
  {
    hide Parse, Frame, Stream, Sendable, Readable;
    StreamUnfolds(ps);
    StreamUnfolds([]);
    FrontUnfolds(ps[0], Readable(ps[1..]));
    PartialFrame(ps[0], w);
  }

  lemma OutcomeOfWhole(p: seq<byte>, ps: seq<seq<byte>>, v: seq<byte>, r: Parsed)
    requires 1 <= |p| <= MAX_FRAME && Sendable(ps) && Sendable([p] + ps) && v <= Stream(ps) && Outcome(ps, v, r)
    ensures Outcome([p] + ps, Frame(p) + v, Parsed([p] + r.delivered, r.rest, r.err))
  {
    hide Frame, Stream, Sendable, Readable;
    FrontUnfolds(p, ps);
    FrontUnfolds(p, Readable(ps));
    FrontUnfolds(p, r.delivered);
    Regroup(Frame(p), Stream(r.delivered), r.rest);
    Cancel(Frame(p), v, Stream(ps));
  }

  lemma Regroup(a: seq<byte>, b: seq<byte>, c: seq<byte>)
    ensures a + (b + c) == (a + b) + c
  {
  }

  lemma Cancel(a: seq<byte>, b: seq<byte>, c: seq<byte>)
    ensures a + b == a + c <==> b == c
  {
    assert (a + b)[|a|..] == b && (a + c)[|a|..] == c;
  }

  lemma FrontUnfolds(p: seq<byte>, ps: seq<seq<byte>>)
    requires 1 <= |p| <= MAX_FRAME
    ensures Sendable([p] + ps) <==> Sendable(ps)
    ensures Sendable(ps) ==> Stream([p] + ps) == Frame(p) + Stream(ps)
    ensures Readable([p] + ps) == [p] + Readable(ps)
  {
    hide Frame, Stream, Sendable, Readable;
    StreamUnfolds([p] + ps);
    assert ([p] + ps)[1..] == ps;
  }

  lemma {:induction false} PrefixParses(ps: seq<seq<byte>>, w: seq<byte>)
    requires Sendable(ps) && w <= Stream(ps)
    ensures Outcome(ps, w, Parse(w))
  {
    hide Parse, Complete, End, Frame, Stream, Sendable, Readable, Outcome;
    StreamUnfolds(ps);
    if ps == [] {
      ParseEmpty();
      OutcomeOfNothing(w);
    } else if |ps[0]| > MAX_FRAME {
      OutcomeOfLarge(ps, w);
    } else {
      FrameHeader(ps[0], []);
      if |Frame(ps[0])| <= |w| {
        WholeFrameFirst(ps[0], Stream(ps[1..]), w);
        var v := w[|Frame(ps[0])|..];
        PrefixParses(ps[1..], v);
        assert ps == [ps[0]] + ps[1..];
        OutcomeOfWhole(ps[0], ps[1..], v, Parse(v));
      } else {
        PrefixParses(ps[1..], []);
        OutcomeOfPart(ps, w);
      }
    }
  }

  lemma OutcomeOfNothing(w: seq<byte>)
    requires Sendable([]) && w <= Stream([])
    ensures Outcome([], w, Parse(w))
  {
  }

  lemma StreamUnfolds(ps: seq<seq<byte>>)
    ensures Sendable(ps) <==> ps == [] || (1 <= |ps[0]| && |ps[0]| + HEADER_SIZE < 0x10000 && Sendable(ps[1..]))
    ensures Sendable(ps) ==> Stream(ps) == if ps == [] then [] else Frame(ps[0]) + Stream(ps[1..])
    ensures Readable(ps) == if ps == [] || |ps[0]| > MAX_FRAME then [] else [ps[0]] + Readable(ps[1..])
  {
    hide Frame;
    if ps != [] && 1 <= |ps[0]| && |ps[0]| + HEADER_SIZE < 0x10000 && Sendable(ps[1..]) {
      assert ps == [ps[0]] + ps[1..];
    }
  }

  lemma PrefixSplits(a: seq<byte>, rest: seq<byte>, w: seq<byte>)
    requires w <= a + rest && |a| <= |w|
    ensures var v := w[|a|..]; w == a + v && v <= rest && (w == a + rest ==> v == rest)
  {
    assert w == (a + rest)[..|w|];
    assert (a + rest)[|a|..] == rest;
  }

  lemma WholeFrameFirst(p: seq<byte>, rest: seq<byte>, w: seq<byte>)
    requires 1 <= |p| <= MAX_FRAME && w <= Frame(p) + rest && |Frame(p)| <= |w|
    ensures var v := w[|Frame(p)|..];
      && w == Frame(p) + v && v <= rest && (w == Frame(p) + rest ==> v == rest)
      && Parse(w) == Parsed([p] + Parse(v).delivered, Parse(v).rest, Parse(v).err)
  {
    hide Parse, Complete, End, Frame;
    PrefixSplits(Frame(p), rest, w);
    FrameHeader(p, w[|Frame(p)|..]);
    ParseOne(w);
  }

  lemma ParseEmpty()
    ensures Parse([]) == Parsed([], [], PppErrNone)
  {
  }

  datatype InState = PpHeader | PpData

  lemma MoveByte<T>(a: seq<T>, s: seq<T>, k: nat, n: nat)
    requires k + n <= |s|
    ensures a + s[k..] == (a + s[k..k + n]) + s[k + n..]
  {
  }

  lemma RejectedHeader(h: seq<byte>, t: seq<byte>)
    requires |h| == HEADER_SIZE && !GoodHeader(h)
    ensures Parse(h + t) == Parsed([], [], PppErrProtocol)
  {
    assert (h + t)[..HEADER_SIZE] == h;
  }

  lemma RejectedEmpty(h: seq<byte>, t: seq<byte>)
    requires |h| == HEADER_SIZE && GoodHeader(h) && FrameSize(h) == 0 && t != []
    ensures Parse(h + t) == Parsed([], [], PppErrAlloc)
  {
    assert (h + t)[..HEADER_SIZE] == h;
  }

  lemma WholeFrame(h: seq<byte>, p: seq<byte>, t: seq<byte>)
    requires |h| == HEADER_SIZE && GoodHeader(h) && FrameSize(h) == |p| > 0
    ensures Parse((h + p) + t) == Parsed([p] + Parse(t).delivered, Parse(t).rest, Parse(t).err)
  {
    var a := (h + p) + t;
    assert a[..HEADER_SIZE] == h && a[HEADER_SIZE..HEADER_SIZE + |p|] == p && a[HEADER_SIZE + |p|..] == t;
  }

  lemma Unfinished(h: seq<byte>, p: seq<byte>)
    requires |h| == HEADER_SIZE && GoodHeader(h) && (|p| < FrameSize(h) || p == [])
    ensures Parse(h + p) == Parsed([], h + p, PppErrNone)
  {
    assert (h + p)[..HEADER_SIZE] == h;
  }

  /** The input control block; delivered lists the packets handed to PPP. */
  class Receiver {
    var state: InState
    var counter: nat
    var header: seq<byte>
    var data: seq<byte>
    ghost var delivered: seq<seq<byte>>

    ghost predicate Valid()
      reads this
    {
      && |header| == HEADER_SIZE
      && match state
         case PpHeader => counter < HEADER_SIZE
         case PpData => GoodHeader(header) && |data| == FrameSize(header) && (counter < |data| || counter == 0)
    }

    /** The bytes of the frame that is still arriving. */
    ghost function Pending(): seq<byte>
      reads this
      requires Valid()
    {
      if state.PpHeader? then header[..counter] else header + data[..counter]
    }

    lemma PendingIsUnfinished()
      requires Valid()
      ensures Parse(Pending()) == Parsed([], Pending(), PppErrNone)
    {
      if state == PpData {
        Unfinished(header, data[..counter]);
      }
    }

    constructor ()
      ensures Valid() && Pending() == [] && delivered == []
    {
      state := PpHeader;
      counter := 0;
      header := [0, 0, 0, 0, 0, 0];
      data := [];
      delivered := [];
    }

    method Reset()
      modifies this
      ensures Valid() && Pending() == [] && delivered == old(delivered) && state == PpHeader
    {
      state := PpHeader;
      counter := 0;
      header := [0, 0, 0, 0, 0, 0];
      data := [];
    }

    /** pbuf_take_at: copies into the packet buffer, unless the offset is already at its end. */
    method TakeAt(block: seq<byte>) returns (ok: bool)
      requires counter + |block| <= |data|
      modifies this`data
      ensures ok == (counter < |data|)
      ensures data == if ok then old(data)[..counter] + block + old(data)[counter + |block|..] else old(data)
    {
      ok := counter < |data|;
      if ok {
        data := data[..counter] + block + data[counter + |block|..];
      }
    }

    /** One byte of header; on the sixth the header is checked and room for the payload made. */
    method HeaderByte(b: byte) returns (err: PppErr)
      requires Valid() && state == PpHeader
      modifies this
      ensures delivered == old(delivered)
      ensures err == PppErrNone ==> Valid() && Pending() == old(Pending()) + [b]
      ensures err != PppErrNone ==> |old(Pending()) + [b]| == HEADER_SIZE && !GoodHeader(old(Pending()) + [b])
      ensures err == PppErrNone || err == PppErrProtocol
    {
      err := PppErrNone;
      header := header[counter := b];
      counter := counter + 1;
      if counter == HEADER_SIZE {
        state := PpData;
        counter := 0;
        assert header == old(Pending()) + [b];
        if FromBe16(header[0], header[1]) != FrameSize(header) + HEADER_SIZE || header[2] != 0x50 || header[3] != 0x50 {
          return PppErrProtocol;
        }
        if FrameSize(header) > MAX_FRAME {
          return PppErrProtocol;
        }
        data := seq(FrameSize(header), _ => 0);
      }
    }

    /** As much payload as has arrived; a whole packet goes to PPP. */
    method DataBytes(s: seq<byte>) returns (err: PppErr, len: nat, ghost packet: seq<byte>)
      requires Valid() && state == PpData && s != []
      modifies this
      ensures len <= |s|
      ensures err == PppErrNone ==> 0 < len && Valid()
      ensures err == PppErrNone || (err == PppErrAlloc && old(counter) == 0 && FrameSize(old(header)) == 0)
      ensures err == PppErrNone && state == PpData ==> Pending() == old(Pending()) + s[..len]
      ensures err == PppErrNone && state == PpHeader ==> Pending() == []
      ensures err == PppErrNone && state == PpHeader ==> |packet| == FrameSize(old(header)) > 0
      ensures err == PppErrNone && state == PpHeader ==> old(header) + packet == old(Pending()) + s[..len]
      ensures delivered == old(delivered) + if err == PppErrNone && state == PpHeader then [packet] else []
    {
      err := PppErrNone;
      packet := [];
      len := if FrameSize(header) - counter < |s| then FrameSize(header) - counter else |s|;
      var taken := TakeAt(s[..len]);
      if !taken {
        return PppErrAlloc, len, [];
      }
      counter := counter + len;
      assert data[..counter] == old(data[..counter]) + s[..len];
      if counter == FrameSize(header) {
        assert data == data[..counter];
        assert header + data == old(Pending()) + s[..len];
        packet := data;
        delivered := delivered + [packet];
        Reset();
      }
    }

    /** The chunk loop: cutting the stream into chunks makes no difference to what is parsed. */
    method Input(s: seq<byte>) returns (err: PppErr)
      requires Valid()
      modifies this
      ensures Valid()
      ensures var r := Parse(old(Pending()) + s);
        delivered == old(delivered) + r.delivered && Pending() == r.rest && err == r.err
    {
      hide Parse, GoodHeader, FrameSize;
      err := PppErrNone;
      var k := 0;
      ghost var start := delivered;
      ghost var total := Parse(Pending() + s);
      assert s[0..] == s && start + total.delivered == delivered + total.delivered;
      while k < |s|
        invariant Valid() && k <= |s| && err == PppErrNone
        invariant var now := Parse(Pending() + s[k..]);
          start + total.delivered == delivered + now.delivered && total.rest == now.rest && total.err == now.err
      {
        ghost var pending, before := Pending(), delivered;
        if state == PpHeader {
          MoveByte(pending, s, k, 1);
          assert s[k..k + 1] == [s[k]] && before + [] == before;
          err := HeaderByte(s[k]);
          if err != PppErrNone {
            RejectedHeader(pending + [s[k]], s[k + 1..]);
            Reset();
            return;
          }
          k := k + 1;
        } else {
          ghost var h := header;
          var len;
          ghost var packet;
          err, len, packet := DataBytes(s[k..]);
          if err != PppErrNone {
            assert pending == h && before + [] == before;
            RejectedEmpty(h, s[k..]);
            Reset();
            return;
          }
          MoveByte(pending, s, k, len);
          k := k + len;
          assert s[k - len..][..len] == s[k - len..k];
          if state == PpHeader {
            WholeFrame(h, packet, s[k..]);
            assert [] + s[k..] == s[k..];
            assert before + ([packet] + Parse(s[k..]).delivered) == delivered + Parse(s[k..]).delivered;
          }
        }
      }
      assert Pending() + s[k..] == Pending() && delivered + [] == delivered;
      PendingIsUnfinished();
    }
  }
}
