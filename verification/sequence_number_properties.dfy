/** What the generator promises its callers: identifiers that carry the
    generator's nibble and counter, a counter that cycles through
    [1, MAX_VALUE] without repeating, `peek` and `reset` that agree with
    `next`, and nibbles that differ between consecutively built generators. */
module SequenceNumberProperties {
  import opened JavaInt
  import opened SequenceNumbers

  // ---------------------------------------------------------------------------
  // Packing

  /** Two packed identifiers with in-range counters are equal exactly when
      their nibbles agree modulo 16 and their counters are equal. */
  lemma PackInjective(u1: int32, l1: int32, u2: int32, l2: int32)
    requires MIN_VALUE <= l1 <= MAX_VALUE && MIN_VALUE <= l2 <= MAX_VALUE
    ensures ConcatSeqNo(u1, l1) == ConcatSeqNo(u2, l2) <==> u1 % 16 == u2 % 16 && l1 == l2
  {
    UnsignedInjective(ConcatSeqNo(u1, l1), ConcatSeqNo(u2, l2));
  }

  /** Generators whose nibbles differ modulo 16 never return the same
      identifier while their counters are in range. */
  lemma DistinctNibblesDisjoint(u1: int32, l1: int32, u2: int32, l2: int32)
    requires MIN_VALUE <= l1 <= MAX_VALUE && MIN_VALUE <= l2 <= MAX_VALUE
    requires u1 % 16 != u2 % 16
    ensures ConcatSeqNo(u1, l1) != ConcatSeqNo(u2, l2)
  {
    PackInjective(u1, l1, u2, l2);
  }

  /** Nibbles equal modulo 16 give the same identifier for every counter,
      negative nibbles included: only `upper % 16` reaches the result. */
  lemma SameNibbleSameIds(u1: int32, u2: int32, lower: int32)
    requires u1 % 16 == u2 % 16
    ensures ConcatSeqNo(u1, lower) == ConcatSeqNo(u2, lower)
  {
    ShiftedNibble(u1, u2);
  }

  // ---------------------------------------------------------------------------
  // Peek and reset

  /** `peek` repeated `n` times leaves the generator as it was and returns
      the same identifier each time, the one the following `next` returns. */
  lemma {:induction false} PeekRepeats(s: SequenceNumber, n: nat)
    ensures Run(s, seq(n, _ => PeekCall)) == Trace(s, seq(n, _ => Returned(Peek(s))))
    ensures Step(s, NextCall).reply == Returned(Peek(s))
  {
    if n > 0 {
      PeekRepeats(s, n - 1);
      assert seq(n, _ => PeekCall)[1..] == seq(n - 1, _ => PeekCall);
      assert [Returned(Peek(s))] + seq(n - 1, _ => Returned(Peek(s))) == seq(n, _ => Returned(Peek(s)));
    }
  }

  /** After `reset` the generator's behaviour depends on its nibble alone:
      the following `peek` and `next` both return the identifier of counter 1. */
  lemma ResetForgetsHistory(s1: SequenceNumber, s2: SequenceNumber, calls: seq<Call>)
    requires s1.rangeNibble == s2.rangeNibble
    ensures Run(s1, [ResetCall] + calls) == Run(s2, [ResetCall] + calls)
    ensures Peek(Reset(s1)) == Next(Reset(s1)).id == ConcatSeqNo(s1.rangeNibble, DEFAULT_VALUE)
  {
    assert ([ResetCall] + calls)[1..] == calls;
  }

  /** Running `a` then `b` ends where running `a + b` ends. */
  lemma {:induction false} RunAppendState(s: SequenceNumber, a: seq<Call>, b: seq<Call>)
    ensures Run(s, a + b).state == Run(Run(s, a).state, b).state
    decreases |a|
  {
    if a == [] {
      assert a + b == b;
    } else {
      assert (a + b)[0] == a[0];
      assert (a + b)[1..] == a[1..] + b;
      RunAppendState(Step(s, a[0]).state, a[1..], b);
    }
  }

  /** The replies of `a + b` are those of `a` followed by those of `b`. */
  lemma {:induction false} RunAppendReplies(s: SequenceNumber, a: seq<Call>, b: seq<Call>)
    ensures Run(s, a + b).replies == Run(s, a).replies + Run(Run(s, a).state, b).replies
    decreases |a|
  {
    if a == [] {
      assert a + b == b;
    } else {
      var st := Step(s, a[0]);
      assert (a + b)[0] == a[0];
      assert (a + b)[1..] == a[1..] + b;
      RunAppendReplies(st.state, a[1..], b);
      var front := Run(st.state, a[1..]);
      var back := Run(front.state, b);
      assert [st.reply] + (front.replies + back.replies) == ([st.reply] + front.replies) + back.replies;
    }
  }

  /** Running `a` then `b` is running `a + b`. */
  lemma RunAppend(s: SequenceNumber, a: seq<Call>, b: seq<Call>)
    ensures Run(s, a + b).state == Run(Run(s, a).state, b).state
    ensures Run(s, a + b).replies == Run(s, a).replies + Run(Run(s, a).state, b).replies
  {
    RunAppendState(s, a, b);
    RunAppendReplies(s, a, b);
  }

  /** `Issue` is `Run` on a sequence of `next` calls. */
  lemma {:induction false} IssueIsRun(s: SequenceNumber, k: nat)
    ensures Run(s, seq(k, _ => NextCall)).state == Issue(s, k).state
    ensures forall i :: 0 <= i < k ==> Run(s, seq(k, _ => NextCall)).replies[i] == Returned(Issue(s, k).ids[i])
  {
    if k > 0 {
      IssueIsRun(s, k - 1);
      var front := seq(k - 1, _ => NextCall);
      assert seq(k, _ => NextCall) == front + [NextCall];
      RunAppend(s, front, [NextCall]);
      var b := Issue(s, k - 1);
      assert Run(s, front).state == b.state;
      var last := Run(b.state, [NextCall]);
      assert last.replies == [Returned(Next(b.state).id)];
    }
  }

  // ---------------------------------------------------------------------------
  // The counter cycle

  /** Reference definition of the counter after `k` calls of `next` from a
      steady counter `v`: the counters 1..MAX_VALUE visited cyclically. */
  function CounterAt(v: int, k: nat): (r: int)
    ensures DEFAULT_VALUE <= r <= MAX_VALUE
  {
    1 + (v - 1 + k) % MAX_VALUE
  }

  /** Fewer than MAX_VALUE steps apart, the reference counters differ. */
  lemma CounterAtDistinct(v: int, i: nat, j: nat)
    requires i < j < i + MAX_VALUE
    ensures CounterAt(v, i) != CounterAt(v, j)
  {
    var a := v - 1 + i;
    var d := j - i;
    var q, r := a / MAX_VALUE, a % MAX_VALUE;
    assert a == q * MAX_VALUE + r;
    if r + d < MAX_VALUE {
      assert a + d == q * MAX_VALUE + (r + d);
      assert (a + d) % MAX_VALUE == r + d;
    } else {
      assert a + d == (q + 1) * MAX_VALUE + (r + d - MAX_VALUE);
      assert (a + d) % MAX_VALUE == r + d - MAX_VALUE;
    }
  }

  /** Every counter in [1, MAX_VALUE] is reached within MAX_VALUE steps,
      and MAX_VALUE steps return to the start. */
  lemma CounterAtCovers(v: int, c: int)
    requires DEFAULT_VALUE <= v <= MAX_VALUE && DEFAULT_VALUE <= c <= MAX_VALUE
    ensures 0 <= (c - v) % MAX_VALUE < MAX_VALUE
    ensures CounterAt(v, (c - v) % MAX_VALUE) == c
    ensures CounterAt(v, MAX_VALUE) == v
  {
    var i := (c - v) % MAX_VALUE;
    if c >= v {
      assert i == c - v;
    } else {
      assert i == c - v + MAX_VALUE;
      assert (v - 1 + i) == (c - 1) + MAX_VALUE;
    }
  }

  /** One `next` moves the counter one place along the cycle. */
  lemma AdvanceAlongCycle(v: int32, k: nat)
    requires DEFAULT_VALUE <= v <= MAX_VALUE
    ensures Advance(CounterAt(v, k) as int32) == CounterAt(v, k + 1)
  {
  }

  /** `k` calls of `next` on a steady generator return the counters
      CounterAt(v, 0), ..., CounterAt(v, k - 1) under its nibble and leave
      the counter at CounterAt(v, k). */
  lemma {:induction false} IssueClosedForm(s: SequenceNumber, k: nat)
    requires Steady(s)
    ensures Issue(s, k).state == s.(value := CounterAt(s.value, k) as int32)
    ensures forall i :: 0 <= i < k ==>
              Issue(s, k).ids[i] == ConcatSeqNo(s.rangeNibble, CounterAt(s.value, i) as int32)
  {
    if k > 0 {
      IssueClosedForm(s, k - 1);
      AdvanceAlongCycle(s.value, k - 1);
    }
  }

  /** The wrap rule: emitting counter MAX_VALUE is followed by emitting 1. */
  lemma WrapSkipsZero(s: SequenceNumber)
    requires s.value == MAX_VALUE
    ensures Issue(s, 2).ids == [ConcatSeqNo(s.rangeNibble, MAX_VALUE), ConcatSeqNo(s.rangeNibble, DEFAULT_VALUE)]
  {
    var b0 := Issue(s, 0);
    var b1 := Issue(s, 1);
    assert b1.ids == [ConcatSeqNo(s.rangeNibble, MAX_VALUE)];
    assert b1.state.value == DEFAULT_VALUE;
  }

  /** Up to MAX_VALUE consecutive calls of `next` on a steady generator
      never return the same identifier twice. */
  lemma IssueNoDuplicates(s: SequenceNumber, k: nat)
    requires Steady(s) && k <= MAX_VALUE
    ensures forall i, j :: 0 <= i < j < k ==> Issue(s, k).ids[i] != Issue(s, k).ids[j]
  {
    IssueClosedForm(s, k);
    forall i, j | 0 <= i < j < k
      ensures Issue(s, k).ids[i] != Issue(s, k).ids[j]
    {
      CounterAtDistinct(s.value, i, j);
      PackInjective(s.rangeNibble, CounterAt(s.value, i) as int32,
                    s.rangeNibble, CounterAt(s.value, j) as int32);
    }
  }

  /** MAX_VALUE consecutive calls of `next` on a steady generator bring
      the counter back to where it started. */
  lemma IssuePeriod(s: SequenceNumber)
    requires Steady(s)
    ensures Issue(s, MAX_VALUE).state == s
  {
    IssueClosedForm(s, MAX_VALUE);
    CounterAtCovers(s.value, s.value);
  }

  /** MAX_VALUE consecutive calls of `next` on a steady generator return
      every counter in [1, MAX_VALUE]: no gaps. */
  lemma IssueFullCycle(s: SequenceNumber)
    requires Steady(s)
    ensures forall c: int32 :: DEFAULT_VALUE <= c <= MAX_VALUE ==>
              ConcatSeqNo(s.rangeNibble, c) in Issue(s, MAX_VALUE).ids
  {
    var ids := Issue(s, MAX_VALUE).ids;
    IssueClosedForm(s, MAX_VALUE);
    forall c: int32 | DEFAULT_VALUE <= c <= MAX_VALUE
      ensures ConcatSeqNo(s.rangeNibble, c) in ids
    {
      CounterAtCovers(s.value, c);
      var i := (c - s.value) % MAX_VALUE;
      assert CounterAt(s.value, i) as int32 == c;
      assert ids[i] == ConcatSeqNo(s.rangeNibble, c);
    }
  }

  /** `k + 1` calls of `next` are one call followed by `k` more. */
  lemma {:induction false} IssueFront(s: SequenceNumber, k: nat)
    ensures Issue(s, k + 1).state == Issue(Next(s).state, k).state
    ensures Issue(s, k + 1).ids == [Next(s).id] + Issue(Next(s).state, k).ids
  {
    if k > 0 {
      IssueFront(s, k - 1);
    }
  }

  /** A sequence without repeats stays so when an element not in it is put in front. */
  lemma ConsDistinct(x: int32, tail: seq<int32>)
    requires forall i, j :: 0 <= i < j < |tail| ==> tail[i] != tail[j]
    requires forall i :: 0 <= i < |tail| ==> tail[i] != x
    ensures forall i, j :: 0 <= i < j < |tail| + 1 ==> ([x] + tail)[i] != ([x] + tail)[j]
  {
    forall i, j | 0 <= i < j < |tail| + 1
      ensures ([x] + tail)[i] != ([x] + tail)[j]
    {
      assert ([x] + tail)[j] == tail[j - 1];
      if i > 0 {
        assert ([x] + tail)[i] == tail[i - 1];
      }
    }
  }

  /** A generator started at counter 0 (lines 32-34) returns counter 0 once
      and then joins the cycle at 1, so up to MAX_VALUE + 1 consecutive
      calls of `next` return pairwise different identifiers. */
  lemma StartAtZeroNoDuplicates(s: SequenceNumber, k: nat)
    requires s.value == MIN_VALUE && k <= MAX_VALUE + 1
    ensures forall i, j :: 0 <= i < j < k ==> Issue(s, k).ids[i] != Issue(s, k).ids[j]
  {
    if k > 0 {
      var t := SequenceNumber(s.rangeNibble, DEFAULT_VALUE);
      assert Next(s).state == t;
      var x, tail := Next(s).id, Issue(t, k - 1).ids;
      IssueFront(s, k - 1);
      assert Issue(s, k).ids == [x] + tail;
      IssueNoDuplicates(t, k - 1);
      IssueKeepsNibble(t, k - 1);
      assert Low28(x) == MIN_VALUE;
      forall i | 0 <= i < |tail|
        ensures tail[i] != x
      {
        if i == 0 {
          assert Low28(tail[i]) == DEFAULT_VALUE;
        } else {
          assert Low28(tail[i]) != MIN_VALUE;
        }
      }
      ConsDistinct(x, tail);
    }
  }

  /** The identifier returned by the `i`-th `next` is what `peek` shows
      after the first `i` calls. */
  lemma {:induction false} IssuePeeks(s: SequenceNumber, k: nat)
    ensures forall i :: 0 <= i < k ==> Issue(s, k).ids[i] == Peek(Issue(s, i).state)
  {
    if k > 0 {
      IssuePeeks(s, k - 1);
    }
  }

  /** From an in-range counter every identifier carries the generator's
      nibble, and only the first can carry counter 0 (a generator built with
      `initialValue` 0 emits 0 once). */
  lemma IssueKeepsNibble(s: SequenceNumber, k: nat)
    requires InRange(s)
    ensures forall i :: 0 <= i < k ==> TopNibble(Issue(s, k).ids[i]) == s.rangeNibble % 16
    ensures forall i :: 0 < i < k ==> Low28(Issue(s, k).ids[i]) != MIN_VALUE
    ensures k > 0 ==> Low28(Issue(s, k).ids[0]) == s.value
  {
    IssuePeeks(s, k);
    forall i | 0 <= i < k
      ensures TopNibble(Issue(s, k).ids[i]) == s.rangeNibble % 16
      ensures 0 < i ==> Low28(Issue(s, k).ids[i]) != MIN_VALUE
    {
      var b := Issue(s, i);
      assert Issue(s, k).ids[i] == Peek(b.state);
    }
  }

  /** Two generators with in-range counters whose nibbles differ modulo 16
      never return a common identifier, however many times each is called. */
  lemma GeneratorsDisjoint(s1: SequenceNumber, k1: nat, s2: SequenceNumber, k2: nat)
    requires InRange(s1) && InRange(s2)
    requires s1.rangeNibble % 16 != s2.rangeNibble % 16
    ensures forall i, j :: 0 <= i < k1 && 0 <= j < k2 ==> Issue(s1, k1).ids[i] != Issue(s2, k2).ids[j]
  {
    IssueKeepsNibble(s1, k1);
    IssueKeepsNibble(s2, k2);
  }

  // ---------------------------------------------------------------------------
  // Range nibbles

  /** Residues modulo 16 agree on successors. */
  lemma SuccessorMod16(x: int, y: int)
    requires x % 16 == y % 16
    ensures (x + 1) % 16 == (y + 1) % 16
  {
    var p, q := x / 16, y / 16;
    assert x + 1 == 16 * p + (x % 16 + 1);
    assert y + 1 == 16 * q + (x % 16 + 1);
  }

  /** Constructions from index `a` give nibbles `a`, `a + 1`, ... modulo 16,
      even across the wrap of the index past INT_MAX. */
  lemma {:induction false} CreateManyNibbles(a: Allocator, n: nat)
    ensures CreateMany(a, n).allocator.instanceIndex % 16 == (a.instanceIndex + n) % 16
    ensures forall i :: 0 <= i < n ==> CreateMany(a, n).generators[i].rangeNibble % 16 == (a.instanceIndex + i) % 16
  {
    CreateManyIndexMod16(a, n);
    if n > 0 {
      CreateManyNibbles(a, n - 1);
      var f := CreateMany(a, n - 1);
      var c := Create(f.allocator);
      assert CreateMany(a, n).generators == f.generators + [c.seqNum];
      assert c.seqNum.rangeNibble == f.allocator.instanceIndex;
      forall i | 0 <= i < n
        ensures CreateMany(a, n).generators[i].rangeNibble % 16 == (a.instanceIndex + i) % 16
      {
        if i < n - 1 {
          assert CreateMany(a, n).generators[i] == f.generators[i];
        } else {
          assert CreateMany(a, n).generators[i] == c.seqNum;
        }
      }
    }
  }

  /** Each construction advances the index by one modulo 16, across its wrap too. */
  lemma {:induction false} CreateManyIndexMod16(a: Allocator, n: nat)
    ensures CreateMany(a, n).allocator.instanceIndex % 16 == (a.instanceIndex + n) % 16
  {
    if n > 0 {
      CreateManyIndexMod16(a, n - 1);
      var f := CreateMany(a, n - 1);
      var c := Create(f.allocator);
      assert CreateMany(a, n).allocator == c.allocator;
      CongruentMod16(f.allocator.instanceIndex + 1, c.allocator.instanceIndex);
      SuccessorMod16(f.allocator.instanceIndex, a.instanceIndex + n - 1);
    }
  }

  /** While the index does not overflow, the `i`-th construction takes
      nibble `a + i` and each construction adds exactly 1 to the index. */
  lemma {:induction false} CreateManyIndices(a: Allocator, n: nat)
    requires a.instanceIndex + n <= INT_MAX
    ensures CreateMany(a, n).allocator.instanceIndex == a.instanceIndex + n
    ensures forall i :: 0 <= i < n ==> CreateMany(a, n).generators[i].rangeNibble == a.instanceIndex + i
  {
    if n > 0 {
      CreateManyIndices(a, n - 1);
      var f := CreateMany(a, n - 1);
      var c := Create(f.allocator);
      assert CreateMany(a, n).generators == f.generators + [c.seqNum];
    }
  }

  /** Fewer than 16 apart, two integers have different residues modulo 16. */
  lemma DistinctResidues(x: int, i: nat, j: nat)
    requires i < j < i + 16
    ensures (x + i) % 16 != (x + j) % 16
  {
    var a := x + i;
    var d := j - i;
    var q, r := a / 16, a % 16;
    assert a == q * 16 + r;
    if r + d < 16 {
      assert a + d == q * 16 + (r + d);
    } else {
      assert a + d == (q + 1) * 16 + (r + d - 16);
    }
  }

  /** Up to 16 consecutive no-argument constructions give pairwise different
      nibbles modulo 16, so their identifiers are disjoint. The `int`
      constructor advances the index in the same way (see `CreateWith`). */
  lemma SixteenGeneratorsDisjoint(a: Allocator, n: nat, i: nat, j: nat, c1: int32, c2: int32)
    requires n <= 16 && i < n && j < n && i != j
    requires MIN_VALUE <= c1 <= MAX_VALUE && MIN_VALUE <= c2 <= MAX_VALUE
    ensures CreateMany(a, n).generators[i].rangeNibble % 16 != CreateMany(a, n).generators[j].rangeNibble % 16
    ensures ConcatSeqNo(CreateMany(a, n).generators[i].rangeNibble, c1)
            != ConcatSeqNo(CreateMany(a, n).generators[j].rangeNibble, c2)
  {
    CreateManyNibbles(a, n);
    if i < j { DistinctResidues(a.instanceIndex, i, j); } else { DistinctResidues(a.instanceIndex, j, i); }
    DistinctNibblesDisjoint(CreateMany(a, n).generators[i].rangeNibble, c1,
                            CreateMany(a, n).generators[j].rangeNibble, c2);
  }

  /** The 17th generator reuses the nibble of the first, so the two return
      the same identifiers: the partition holds for 16 generators only. */
  lemma SeventeenthGeneratorCollides(a: Allocator, c: int32)
    ensures CreateMany(a, 17).generators[16].rangeNibble % 16 == CreateMany(a, 17).generators[0].rangeNibble % 16
    ensures ConcatSeqNo(CreateMany(a, 17).generators[16].rangeNibble, c)
            == ConcatSeqNo(CreateMany(a, 17).generators[0].rangeNibble, c)
  {
    CreateManyNibbles(a, 17);
    SameNibbleSameIds(CreateMany(a, 17).generators[16].rangeNibble,
                      CreateMany(a, 17).generators[0].rangeNibble, c);
  }

  // ---------------------------------------------------------------------------
  // Counters outside the nominal range

  /** The residue modulo 16 of a predecessor. */
  lemma PredecessorMod16(x: int)
    ensures (x - 1) % 16 == if x % 16 == 0 then 15 else x % 16 - 1
  {
    var q := x / 16;
    assert x == 16 * q + x % 16;
    if x % 16 == 0 {
      assert x - 1 == 16 * (q - 1) + 15;
    } else {
      assert x - 1 == 16 * q + (x % 16 - 1);
    }
  }

  /** A negative counter that is not a multiple of 2^28 has a negative
      truncated remainder, 2^28 below the Euclidean one. */
  lemma NegativeRemainder(lower: int32)
    requires lower < 0 && lower % RANGE_SIZE != 0
    ensures Rem(lower, MAX_VALUE + 1) == lower % RANGE_SIZE - RANGE_SIZE
  {
    var q := lower / RANGE_SIZE;
    assert -(lower as int) == (-q - 1) * RANGE_SIZE + (RANGE_SIZE - lower % RANGE_SIZE);
  }

  /** `assertValid` admits any initial counter. A negative counter that is
      not a multiple of 2^28 borrows from the nibble: its identifier carries
      the nibble `upper - 1` modulo 16 above the counter's low 28 bits, which
      is in the range of the generator built just before. */
  lemma NegativeCounterBorrows(upper: int32, lower: int32)
    requires lower < 0 && lower % RANGE_SIZE != 0
    ensures TopNibble(ConcatSeqNo(upper, lower)) == (upper - 1) % 16
    ensures Low28(ConcatSeqNo(upper, lower)) == lower % RANGE_SIZE
  {
    var r := ConcatSeqNo(upper, lower);
    PackArithmetic(upper, lower);
    var e0 := upper % 16;
    var l := lower % RANGE_SIZE;
    NegativeRemainder(lower);
    var v := e0 * RANGE_SIZE + l - RANGE_SIZE;
    assert Unsigned(r) == v % TWO_32;
    PredecessorMod16(upper);
    var e := (upper - 1) % 16;
    if e0 == 0 {
      assert v % TWO_32 == v + TWO_32;
      assert Unsigned(r) == e * RANGE_SIZE + l;
    } else {
      assert v % TWO_32 == v;
      assert Unsigned(r) == e * RANGE_SIZE + l;
    }
    SplitNibble(r, e, l);
  }

  /** A negative counter that is a multiple of 2^28 (INT_MIN among them) has
      truncated remainder 0: nothing borrows, and the identifier is the
      nibble alone. */
  lemma NegativeMultiplePacksNibble(upper: int32, lower: int32)
    requires lower < 0 && lower % RANGE_SIZE == 0
    ensures Unsigned(ConcatSeqNo(upper, lower)) == (upper % 16) * RANGE_SIZE
    ensures TopNibble(ConcatSeqNo(upper, lower)) == upper % 16
    ensures Low28(ConcatSeqNo(upper, lower)) == 0
  {
    var r := ConcatSeqNo(upper, lower);
    PackArithmetic(upper, lower);
    assert Rem(lower, MAX_VALUE + 1) == 0;
    assert 0 <= (upper % 16) * RANGE_SIZE < TWO_32;
    SplitNibble(r, upper % 16, 0);
  }

  /** Concrete instances: counter -1 of the generator with nibble 1 is the
      identifier of counter MAX_VALUE of the generator with nibble 0, and a
      counter started at INT_MAX becomes INT_MIN after one `next`. */
  lemma OutOfRangeCounters()
    ensures CreateWith(Allocator(1), -1).Success?
    ensures Next(SequenceNumber(1, -1)).id == Next(SequenceNumber(0, MAX_VALUE)).id
    ensures Next(SequenceNumber(1, INT_MAX)).state.value == INT_MIN
  {
    NegativeCounterBorrows(1, -1);
    UnsignedInjective(ConcatSeqNo(1, -1), ConcatSeqNo(0, MAX_VALUE));
  }
}
