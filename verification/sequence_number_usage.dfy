/** The usage scenario of the generator's unit test, replayed on the model:
    the first generator of a fresh process counts 1, 2, 3, 4; the second,
    started at MAX_VALUE, wraps within its own range 0x1000_0000 ..
    0x1FFF_FFFF and starts over at 1 after `reset`. */
module SequenceNumberUsage {
  import opened JavaInt
  import opened SequenceNumbers
  import opened SequenceNumberProperties

  /** The test's calls on the second generator: four `next`, then `peek`,
      `reset`, `peek`, then three `next`. */
  const WRAP_CALLS: seq<Call> := seq(4, _ => NextCall)
  const RESET_CALLS: seq<Call> := [PeekCall, ResetCall, PeekCall]
  const RESTART_CALLS: seq<Call> := seq(3, _ => NextCall)
  const SECOND_CALLS: seq<Call> := WRAP_CALLS + RESET_CALLS + RESTART_CALLS

  /** The replies the test expects to those calls. */
  const WRAP_REPLIES: seq<Reply> :=
    [Returned(0x1FFF_FFFF), Returned(0x1000_0001), Returned(0x1000_0002), Returned(0x1000_0003)]
  const RESET_REPLIES: seq<Reply> := [Returned(0x1000_0004), Completed, Returned(0x1000_0001)]
  const RESTART_REPLIES: seq<Reply> := [Returned(0x1000_0001), Returned(0x1000_0002), Returned(0x1000_0003)]
  const SECOND_REPLIES: seq<Reply> := WRAP_REPLIES + RESET_REPLIES + RESTART_REPLIES

  /** Identifier of counter `c` in the range of nibble `u`, read off the
      packing contract for a concrete nibble and counter. */
  lemma Packed(u: int32, c: int32, expected: int32)
    requires 0 <= u < 8 && MIN_VALUE <= c <= MAX_VALUE && expected == u * RANGE_SIZE + c
    ensures ConcatSeqNo(u, c) == expected
  {
    UnsignedInjective(ConcatSeqNo(u, c), expected);
  }

  /** `k` calls of `next` as a call sequence from counter `v` of nibble
      `u`: replies and final counter follow the cycle. */
  lemma NextCalls(u: int32, v: int32, k: nat)
    requires 0 <= u < 8 && DEFAULT_VALUE <= v <= MAX_VALUE
    ensures Run(SequenceNumber(u, v), seq(k, _ => NextCall)).state
            == SequenceNumber(u, CounterAt(v, k) as int32)
    ensures forall i :: 0 <= i < k ==>
              Run(SequenceNumber(u, v), seq(k, _ => NextCall)).replies[i]
              == Returned((u * RANGE_SIZE + CounterAt(v, i)) as int32)
  {
    var s := SequenceNumber(u, v);
    IssueIsRun(s, k);
    IssueClosedForm(s, k);
    forall i | 0 <= i < k
      ensures Run(s, seq(k, _ => NextCall)).replies[i] == Returned((u * RANGE_SIZE + CounterAt(v, i)) as int32)
    {
      Packed(u, CounterAt(v, i) as int32, (u * RANGE_SIZE + CounterAt(v, i)) as int32);
    }
  }

  /** The first generator of a fresh process has nibble 0 and returns 1, 2, 3, 4. */
  lemma FirstGenerator()
    ensures Create(FRESH_PROCESS).seqNum == SequenceNumber(0, DEFAULT_VALUE)
    ensures Create(FRESH_PROCESS).allocator == Allocator(1)
    ensures Run(Create(FRESH_PROCESS).seqNum, seq(4, _ => NextCall)).replies
            == [Returned(1), Returned(2), Returned(3), Returned(4)]
  {
    NextCalls(0, DEFAULT_VALUE, 4);
    var r := Run(SequenceNumber(0, DEFAULT_VALUE), seq(4, _ => NextCall)).replies;
    assert CounterAt(1, 2) == 3 && CounterAt(1, 3) == 4;
    assert r[0] == Returned(1) && r[1] == Returned(2) && r[2] == Returned(3) && r[3] == Returned(4);
  }

  /** The second generator, built with `initialValue` MAX_VALUE, has nibble 1. */
  lemma SecondGenerator()
    ensures CreateWith(Allocator(1), MAX_VALUE).Success?
    ensures CreateWith(Allocator(1), MAX_VALUE).value.seqNum == SequenceNumber(1, MAX_VALUE)
  {
  }

  /** Four calls of `next` across the wrap return counters MAX_VALUE, 1, 2, 3. */
  lemma SecondGeneratorWraps()
    ensures Run(SequenceNumber(1, MAX_VALUE), WRAP_CALLS) == Trace(SequenceNumber(1, 4), WRAP_REPLIES)
  {
    NextCalls(1, MAX_VALUE, 4);
    var a := Run(SequenceNumber(1, MAX_VALUE), seq(4, _ => NextCall));
    assert CounterAt(MAX_VALUE, 0) == MAX_VALUE && CounterAt(MAX_VALUE, 1) == 1;
    assert CounterAt(MAX_VALUE, 2) == 2 && CounterAt(MAX_VALUE, 3) == 3;
    assert CounterAt(MAX_VALUE, 4) == 4;
    assert a.replies[0] == Returned(0x1FFF_FFFF) && a.replies[1] == Returned(0x1000_0001);
    assert a.replies[2] == Returned(0x1000_0002) && a.replies[3] == Returned(0x1000_0003);
  }

  /** `peek` shows counter 4; after `reset`, `peek` shows counter 1. */
  lemma SecondGeneratorResets()
    ensures Run(SequenceNumber(1, 4), RESET_CALLS) == Trace(SequenceNumber(1, 1), RESET_REPLIES)
  {
    Packed(1, 4, 0x1000_0004);
    Packed(1, 1, 0x1000_0001);
    var middle := [PeekCall, ResetCall, PeekCall];
    assert middle[1..] == [ResetCall, PeekCall] && middle[2..] == [PeekCall];
  }

  /** Three calls of `next` after the reset return counters 1, 2, 3. */
  lemma SecondGeneratorRestarts()
    ensures Run(SequenceNumber(1, 1), RESTART_CALLS).replies == RESTART_REPLIES
  {
    NextCalls(1, DEFAULT_VALUE, 3);
    var c := Run(SequenceNumber(1, 1), seq(3, _ => NextCall));
    assert CounterAt(1, 0) == 1 && CounterAt(1, 1) == 2 && CounterAt(1, 2) == 3;
    assert c.replies[0] == Returned(0x1000_0001) && c.replies[1] == Returned(0x1000_0002);
    assert c.replies[2] == Returned(0x1000_0003);
  }

  /** The test's calls on the second generator return the identifiers it expects. */
  lemma SecondGeneratorReplies()
    ensures Run(SequenceNumber(1, MAX_VALUE), SECOND_CALLS).replies == SECOND_REPLIES
  {
    var g := SequenceNumber(1, MAX_VALUE);
    SecondGeneratorWraps();
    SecondGeneratorResets();
    SecondGeneratorRestarts();
    RunAppend(g, WRAP_CALLS, RESET_CALLS);
    RunAppend(g, WRAP_CALLS + RESET_CALLS, RESTART_CALLS);
  }

  /** The whole test: in a fresh process, the first generator returns
      1, 2, 3, 4 and the second, built with MAX_VALUE, returns the
      identifiers the test asserts. */
  lemma Usage()
    ensures Run(Create(FRESH_PROCESS).seqNum, seq(4, _ => NextCall)).replies
            == [Returned(1), Returned(2), Returned(3), Returned(4)]
    ensures CreateWith(Create(FRESH_PROCESS).allocator, MAX_VALUE).Success?
    ensures Run(CreateWith(Create(FRESH_PROCESS).allocator, MAX_VALUE).value.seqNum, SECOND_CALLS).replies
            == SECOND_REPLIES
  {
    FirstGenerator();
    SecondGenerator();
    SecondGeneratorReplies();
  }
}
