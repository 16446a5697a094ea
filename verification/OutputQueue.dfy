/** Draining a packet buffer queue into a socket that takes as much as it likes. */
module OutputQueue {
  import opened Octets
  import opened PBufQueue

  datatype SendStatus = SndOk(sbytes: nat) | SndRetry | SndError(rc: int)

  type Positive = n: int | n > 0 witness 1

  /** What a socket is going to do at one of its calls: take so many bytes at most, be busy, or fail. */
  datatype Answer = Takes(atMost: Positive) | Busy | Fails(rc: int)

  /** Sending nothing is reported as an error whose code is 0. */
  function Respond(answer: Answer, len: nat): (status: SendStatus)
    ensures status.SndOk? ==> 0 < status.sbytes <= len
  {
    match answer
    case Takes(n) => if len == 0 then SndError(0) else SndOk(if n < len then n else len)
    case Busy => SndRetry
    case Fails(rc) => SndError(rc)
  }

  /** A stream socket with its future answers: sent is everything it has accepted so far. */
  class Socket {
    const answers: nat -> Answer
    var sent: seq<byte>
    ghost var last: SendStatus
    var calls: nat

    constructor (future: nat -> Answer)
      ensures sent == [] && calls == 0 && answers == future
    {
      answers := future;
      sent := [];
      last := SndRetry;
      calls := 0;
    }

    /** Since there were so many calls, the socket has reported an error code. */
    ghost predicate Failed(before: nat)
      reads this
    {
      calls != before && last.SndError? && last.rc != 0
    }

    /** Accepts a non-empty prefix of the block, or nothing. */
    method SendData(block: seq<byte>) returns (status: SendStatus)
      modifies this
      ensures status == Respond(answers(old(calls)), |block|)
      ensures status.SndOk? ==> sent == old(sent) + block[..status.sbytes]
      ensures !status.SndOk? ==> sent == old(sent)
      ensures last == status && calls == old(calls) + 1
    {
      status := Respond(answers(calls), |block|);
      if status.SndOk? {
        sent := sent + block[..status.sbytes];
      }
      last := status;
      calls := calls + 1;
    }
  }

  /** How many bytes of the blocks leave from call k on, one call a block or a part of it, up to the first refusal. */
  function Leaves(blocks: seq<nat>, answers: nat -> Answer, k: nat): nat
    decreases |blocks|, if blocks == [] then 0 else blocks[0]
  {
    if blocks == [] then 0 else
      var status := Respond(answers(k), blocks[0]);
      if !status.SndOk? then 0 else status.sbytes + Leaves(Shorten(blocks, status.sbytes), answers, k + 1)
  }

  /** The next so many answers are all good, and together they take every byte of the blocks. */
  predicate Suffice(blocks: seq<nat>, answers: nat -> Answer, k: nat, calls: nat)
    decreases calls
  {
    if calls == 0 then Sum(blocks) == 0 else
      blocks != [] && Respond(answers(k), blocks[0]).SndOk? &&
      Suffice(Shorten(blocks, Respond(answers(k), blocks[0]).sbytes), answers, k + 1, calls - 1)
  }

  lemma {:induction false} LeavesByGoodAnswers(blocks: seq<nat>, answers: nat -> Answer, k: nat) returns (calls: nat)
    ensures Leaves(blocks, answers, k) <= Sum(blocks)
    ensures Leaves(blocks, answers, k) == Sum(blocks) ==> Suffice(blocks, answers, k, calls)
    decreases |blocks|, if blocks == [] then 0 else blocks[0]
  {
    calls := 0;
    if blocks != [] && Respond(answers(k), blocks[0]).SndOk? {
      var taken := Respond(answers(k), blocks[0]).sbytes;
      calls := LeavesByGoodAnswers(Shorten(blocks, taken), answers, k + 1);
      assert Sum(blocks) == taken + Sum(Shorten(blocks, taken));
      calls := calls + 1;
    }
  }

  lemma {:induction false} GoodAnswersTakeAll(blocks: seq<nat>, answers: nat -> Answer, k: nat, calls: nat)
    requires Suffice(blocks, answers, k, calls)
    ensures Leaves(blocks, answers, k) == Sum(blocks)
    decreases calls
  {
    if calls > 0 {
      var taken := Respond(answers(k), blocks[0]).sbytes;
      GoodAnswersTakeAll(Shorten(blocks, taken), answers, k + 1, calls - 1);
      assert Sum(blocks) == taken + Sum(Shorten(blocks, taken));
    } else {
      var _ := LeavesByGoodAnswers(blocks, answers, k);
    }
  }

  /** Everything leaves if and only if the answers take it all before the first of them that is a refusal. */
  lemma AllLeaves(blocks: seq<nat>, answers: nat -> Answer, k: nat)
    ensures Leaves(blocks, answers, k) == Sum(blocks) <==> exists calls: nat :: Suffice(blocks, answers, k, calls)
  {
    var calls := LeavesByGoodAnswers(blocks, answers, k);
    if n: nat :| Suffice(blocks, answers, k, n) {
      GoodAnswersTakeAll(blocks, answers, k, n);
      assert Leaves(blocks, answers, k) == Sum(blocks);
      assert exists m: nat :: Suffice(blocks, answers, k, m);
    }
  }

  datatype LwipErr = ErrOk | ErrIf | ErrMem | ErrVal | ErrConn

  /** Nothing was refused and there is something to send: tcp_output is due. */
  predicate OutputDue(writes: nat, last: LwipErr, unsent: bool) {
    (writes == 0 || last == ErrOk) && (writes > 0 || unsent)
  }

  /**
   * What a drain reports: the refusal of tcp_write, or else the answer of tcp_output if that was due, where
   * ERR_IF counts as none.
   */
  function Outcome(writes: nat, last: LwipErr, unsent: bool, output: LwipErr): LwipErr {
    if writes > 0 && last != ErrOk then last
    else if OutputDue(writes, last, unsent) && output != ErrIf then output
    else ErrOk
  }

  /**
   * A TCP control block: given is everything that tcp_write has copied. What tcp_write and tcp_output answered
   * last is kept, with the number of their calls.
   */
  class TcpPcb {
    ghost var given: seq<byte>
    ghost var last: LwipErr
    ghost var calls: nat
    ghost var lastOutput: LwipErr
    ghost var outputs: nat
    var sndBuf: nat
    var unsent: bool

    constructor (space: nat)
      ensures given == [] && !unsent && sndBuf == space && calls == 0 == outputs
    {
      given := [];
      last, lastOutput := ErrOk, ErrOk;
      calls, outputs := 0, 0;
      sndBuf := space;
      unsent := false;
    }

    /** Since there were so many calls, tcp_write has refused a block. */
    ghost predicate Refused(before: nat)
      reads this
    {
      calls > before && last != ErrOk
    }

    /** What a drain that began after so many calls, with or without unsent segments, has to report. */
    ghost function Verdict(before: nat, pending: bool): LwipErr
      reads this
    {
      Outcome(if calls > before then calls - before else 0, last, pending, lastOutput)
    }

    /** How often such a drain has to call tcp_output. */
    ghost function Due(before: nat, pending: bool): nat
      reads this
    {
      if OutputDue(if calls > before then calls - before else 0, last, pending) then 1 else 0
    }

    /** Copies the whole block or none of it. */
    method Write(block: seq<byte>) returns (rc: LwipErr)
      requires |block| <= sndBuf
      modifies this`given, this`last, this`calls, this`sndBuf, this`unsent
      ensures rc == ErrOk || rc == ErrMem || rc == ErrConn
      ensures last == rc && calls == old(calls) + 1
      ensures given == if rc == ErrOk then old(given) + block else old(given)
      ensures sndBuf == if rc == ErrOk then old(sndBuf) - |block| else old(sndBuf)
      ensures unsent == (old(unsent) || rc == ErrOk)
    {
      var refuse: bool := *;
      var closed: bool := *;
      if refuse {
        rc := if closed then ErrConn else ErrMem;
      } else {
        given := given + block;
        sndBuf := sndBuf - |block|;
        unsent := true;
        rc := ErrOk;
      }
      last := rc;
      calls := calls + 1;
    }

    method Output() returns (rc: LwipErr)
      modifies this`unsent, this`lastOutput, this`outputs
      ensures rc != ErrVal && lastOutput == rc && outputs == old(outputs) + 1 && unsent == (rc != ErrOk)
    {
      var choice: nat := *;
      rc := if choice == 0 then ErrOk else if choice == 1 then ErrIf else ErrConn;
      unsent := choice != 0;
      lastOutput := rc;
      outputs := outputs + 1;
    }

    /** The remote host has acknowledged so many bytes. */
    method Acknowledged(len: nat, pending: bool)
      modifies this`sndBuf, this`unsent
      ensures sndBuf == old(sndBuf) + len && unsent == pending
    {
      sndBuf := sndBuf + len;
      unsent := pending;
    }
  }

  /** Bytes that leave the front of a queue for the end of a stream: together they stay what they were. */
  lemma FrontMoves<T>(out: seq<T>, queued: seq<T>, block: seq<T>, n: nat)
    requires block <= queued && n <= |block|
    ensures (out + block[..n]) + queued[n..] == out + queued
  {
  }

  lemma LongerPrefix<T>(a: seq<T>, x: seq<T>, b: seq<T>, y: seq<T>)
    requires a + x == b + y && |a| <= |b|
    ensures a <= b && b <= a + x
  {
    assert a == (a + x)[..|a|];
    assert b == (b + y)[..|b|];
  }

  /** One send: a non-empty front of the queue goes out, or nothing does. */
  method SendBlock(q: PBufQueue, socket: Socket) returns (status: SendStatus)
    requires q.Valid() && q.chain != null
    modifies q, q.repr, socket
    ensures q.Valid() && (old(q.Fits()) ==> q.Fits())
    ensures socket.sent + q.Contents() == old(socket.sent) + old(q.Contents())
    ensures |socket.sent| == |old(socket.sent)| + if status.SndOk? then status.sbytes else 0
    ensures status.SndOk? ==> status.sbytes > 0
    ensures q.repr == old(q.repr) && old(q.Blocks()) != []
    ensures status == Respond(socket.answers(old(socket.calls)), old(q.Blocks())[0])
    ensures q.Blocks() == if status.SndOk? then Shorten(old(q.Blocks()), status.sbytes) else old(q.Blocks())
    ensures socket.last == status && socket.calls == old(socket.calls) + 1
  {
    hide Chain, Distinct, Apart, Bytes, Lengths, q.Valid, q.Contents, q.Fits, q.Blocks;
    ghost var out, queued := socket.sent, q.Contents();
    var block := q.GetWholeCblock();
    status := socket.SendData(block);
    if status.SndOk? {
      FrontMoves(out, queued, block, status.sbytes);
      var moved := q.Move(status.sbytes);
      if !moved {
        assert false;
      }
    }
  }

  /** The loop over a socket: partial sends, until the queue is empty, the socket is busy or it fails. */
  method WriteSocket(q: PBufQueue, socket: Socket) returns (rc: int, written: nat)
    requires q.Valid()
    modifies q, q.repr, socket
    ensures q.Valid() && q.repr == old(q.repr) && (old(q.Fits()) ==> q.Fits())
    ensures socket.sent + q.Contents() == old(socket.sent) + old(q.Contents())
    ensures old(socket.sent) <= socket.sent && |socket.sent| == |old(socket.sent)| + written
    ensures written == Leaves(old(q.Blocks()), socket.answers, old(socket.calls))
    ensures q.IsEmpty() || !socket.last.SndOk?
    ensures old(q.IsEmpty()) <==> socket.calls == old(socket.calls)
    ensures rc == if !old(q.IsEmpty()) && socket.last.SndError? then socket.last.rc else 0
  {
    hide Chain, Distinct, Apart, Bytes, Lengths, Respond, Shorten, q.Valid, q.Contents, q.Fits, q.Blocks;
    written := 0;
    rc := 0;
    var status := SndOk(0);
    ghost var before, all := socket.sent, q.Contents();
    while !q.IsEmpty() && status.SndOk?
      invariant q.Valid() && q.repr == old(q.repr) && (old(q.Fits()) ==> q.Fits())
      invariant socket.sent + q.Contents() == before + all
      invariant |socket.sent| == |before| + written
      invariant Leaves(old(q.Blocks()), socket.answers, old(socket.calls)) ==
        written + if status.SndOk? then Leaves(q.Blocks(), socket.answers, socket.calls) else 0
      invariant socket.calls == old(socket.calls) ==> status.SndOk? && rc == 0 && q.IsEmpty() == old(q.IsEmpty())
      invariant socket.calls >= old(socket.calls)
      invariant socket.calls > old(socket.calls) ==> !old(q.IsEmpty()) && status == socket.last
      invariant socket.calls > old(socket.calls) ==> rc == if status.SndError? then status.rc else 0
      decreases |q.Contents()|, status.SndOk?
    {
      ghost var sum := |socket.sent| + |q.Contents()|;
      status := SendBlock(q, socket);
      assert |socket.sent + q.Contents()| == sum;
      if status.SndOk? {
        written := written + status.sbytes;
      }
      rc := if status.SndError? then status.rc else 0;
    }
    LongerPrefix(before, all, socket.sent, q.Contents());
  }

  /** One tcp_write of at most the free send buffer: a front of the queue is copied, or nothing is. */
  method WriteBlock(q: PBufQueue, pcb: TcpPcb) returns (rc: LwipErr, len: nat)
    requires q.Valid() && q.chain != null && pcb.sndBuf > 0
    modifies q, q.repr, pcb
    ensures q.Valid() && q.repr == old(q.repr) && (old(q.Fits()) ==> q.Fits())
    ensures pcb.given + q.Contents() == old(pcb.given) + old(q.Contents())
    ensures |pcb.given| == |old(pcb.given)| + len
    ensures old(q.Blocks()) != [] && (rc == ErrOk ==>
      len == if old(pcb.sndBuf) < old(q.Blocks())[0] then old(pcb.sndBuf) else old(q.Blocks())[0])
    ensures rc == ErrOk && len == 0 ==> |q.spine| < |old(q.spine)|
    ensures rc != ErrOk ==> len == 0 && |q.spine| <= |old(q.spine)|
    ensures rc != ErrIf && rc != ErrVal
    ensures pcb.last == rc && pcb.calls == old(pcb.calls) + 1
    ensures pcb.unsent == (old(pcb.unsent) || rc == ErrOk)
    ensures pcb.lastOutput == old(pcb.lastOutput) && pcb.outputs == old(pcb.outputs)
  {
    hide Chain, Distinct, Apart, Bytes, q.Valid, q.Contents, q.Fits;
    ghost var given, queued := pcb.given, q.Contents();
    var block := q.GetCblock(pcb.sndBuf);
    SpineShrinks(q);
    len := 0;
    rc := pcb.Write(block);
    if rc == ErrOk {
      FrontMoves(given, queued, block, |block|);
      assert block[..|block|] == block;
      var moved := q.Move(|block|);
      if !moved {
        assert false;
      } else {
        len := |block|;
      }
    }
  }

  lemma SpineShrinks(q: PBufQueue)
    requires q.Valid() && q.chain != null
    ensures q.spine != [] && q.offset <= q.chain.Len()
  {
  }

  /** The loop over a TCP control block. */
  method WritePcb(q: PBufQueue, pcb: TcpPcb) returns (rc: LwipErr, written: nat)
    requires q.Valid()
    modifies q, q.repr, pcb
    ensures q.Valid() && q.repr == old(q.repr) && (old(q.Fits()) ==> q.Fits())
    ensures pcb.given + q.Contents() == old(pcb.given) + old(q.Contents())
    ensures old(pcb.given) <= pcb.given && |pcb.given| == |old(pcb.given)| + written
    ensures rc != ErrIf && rc != ErrVal && (old(q.IsEmpty()) ==> q.IsEmpty())
    ensures q.IsEmpty() || pcb.sndBuf == 0 || pcb.Refused(old(pcb.calls))
    ensures old(q.IsEmpty()) || old(pcb.sndBuf) == 0 <==> pcb.calls == old(pcb.calls)
    ensures pcb.calls >= old(pcb.calls)
    ensures rc == pcb.Verdict(old(pcb.calls), old(pcb.unsent))
    ensures pcb.outputs == old(pcb.outputs) + pcb.Due(old(pcb.calls), old(pcb.unsent))
  {
    hide Chain, Distinct, Apart, Bytes, q.Valid, q.Contents, q.Fits;
    written := 0;
    rc := ErrOk;
    ghost var before, all := pcb.given, q.Contents();
    while !q.IsEmpty() && rc == ErrOk
      invariant q.Valid() && q.repr == old(q.repr) && (old(q.Fits()) ==> q.Fits())
      invariant pcb.given + q.Contents() == before + all
      invariant |pcb.given| == |before| + written
      invariant rc != ErrIf && rc != ErrVal && pcb.calls >= old(pcb.calls)
      invariant pcb.calls == old(pcb.calls) ==> rc == ErrOk && q.IsEmpty() == old(q.IsEmpty()) && pcb.sndBuf == old(pcb.sndBuf)
      invariant pcb.calls > old(pcb.calls) ==> !old(q.IsEmpty()) && old(pcb.sndBuf) != 0 && rc == pcb.last
      invariant pcb.outputs == old(pcb.outputs)
      invariant pcb.calls == old(pcb.calls) ==> written == 0 && pcb.unsent == old(pcb.unsent)
      invariant pcb.calls > old(pcb.calls) && rc == ErrOk ==> pcb.unsent
      decreases |q.Contents()|, |q.spine|, rc == ErrOk
    {
      if pcb.sndBuf == 0 {
        break;
      }
      ghost var sum := |pcb.given| + |q.Contents()|;
      var len;
      rc, len := WriteBlock(q, pcb);
      assert |pcb.given + q.Contents()| == sum;
      written := written + len;
    }
    LongerPrefix(before, all, pcb.given, q.Contents());
    if rc == ErrOk && (written > 0 || pcb.unsent) {
      rc := pcb.Output();
    }
    if rc == ErrIf {
      rc := ErrOk;
    }
  }
}
