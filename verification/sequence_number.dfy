/** The SMPP PDU sequence-number generator.

    Every PDU header carries a 32-bit `sequence_number` that a response echoes
    back (section 2.2.2 of the SMPP v3.4 specification). One generator serves
    one bind. Its identifiers put a 4-bit range nibble, taken from a
    process-wide instance index when the generator is built, above a 28-bit
    counter that wraps from MAX_VALUE back to 1. Generators built one after
    another get different nibbles, so up to 16 binds hand out disjoint sets
    of identifiers.

    The generator is an immutable record; each Java method is one atomic step
    from a state to a state. The process-wide instance index is an explicit
    `Allocator` value that the constructors take and return. */
module SequenceNumbers {
  import opened JavaInt
  import opened Wrappers

  /** Lower end of the nominal counter range (some carriers start at 0);
      `assertValid` does not enforce it. */
  const MIN_VALUE: int32 := 0x0000000
  /** First counter of a default-built or reset generator. */
  const DEFAULT_VALUE: int32 := 0x0000001
  /** The wrap point of `next`: the largest counter of the cycle, 28 bits
      wide, with the range nibble above it. It does not bound the `int`
      constructor's `initialValue`. */
  const MAX_VALUE: int32 := 0xFFFFFFF
  /** Number of distinct low-28-bit patterns, the divisor in `lower % (MAX_VALUE + 1)`. */
  const RANGE_SIZE: int := 0x1000_0000

  /** One generator: its range nibble and the counter it emits next. */
  datatype SequenceNumber = SequenceNumber(rangeNibble: int32, value: int32)

  /** The process-wide `instanceIndex`, the nibble of the next generator built. */
  datatype Allocator = Allocator(instanceIndex: int32)

  /** The instance index when the process starts. */
  const FRESH_PROCESS: Allocator := Allocator(0)

  /** The checked exception the `int` constructor declares. */
  datatype InvalidSequenceNumber = InvalidSequenceNumber(sequenceNumber: int32)

  /** What a constructor leaves behind: the advanced index and the new generator. */
  datatype Created = Created(allocator: Allocator, seqNum: SequenceNumber)

  /** What `next` leaves behind: the advanced generator and the identifier it returned. */
  datatype Issued = Issued(state: SequenceNumber, id: int32)

  /** The counter is in the nominal range the constants describe. */
  predicate InRange(s: SequenceNumber)
  {
    MIN_VALUE <= s.value <= MAX_VALUE
  }

  /** The counter is in the range `next` and `reset` keep it in: 0 is excluded. */
  predicate Steady(s: SequenceNumber)
  {
    DEFAULT_VALUE <= s.value <= MAX_VALUE
  }

  /** The Java expression `((upper % 16) << 28) + (lower % (MAX_VALUE + 1))`. */
  function PackExpr(upper: int32, lower: int32): (r: int32)
  {
    Add(ShiftLeft28(Rem(upper, 16)), Rem(lower, MAX_VALUE + 1))
  }

  /** Modular core of the packing: a shifted remainder `t` that is `e` or
      `e - 16`, plus `l`, has the bit pattern of `e * 2^28 + l`. */
  lemma PackCongruence(t: int, e: int, sh: int32, l: int, r: int32)
    requires t == e || t == e - 16
    requires (t * RANGE_SIZE - sh) % TWO_32 == 0
    requires (sh + l - r) % TWO_32 == 0
    ensures Unsigned(r) == (e * RANGE_SIZE + l) % TWO_32
  {
    var v := e * RANGE_SIZE + l;
    var p := (t * RANGE_SIZE - sh) / TWO_32;
    var q := (sh + l - r) / TWO_32;
    var u := Unsigned(r);
    var w := (u - r) / TWO_32;
    if t == e {
      assert u - v == (w - p - q) * TWO_32;
    } else {
      assert u - v == (w - p - q - 1) * TWO_32;
    }
    ReduceCongruent(u, v);
  }

  /** The bit pattern of the packed value for every pair of `int`s: the
      Euclidean residue of `upper` modulo 16 in the top nibble, plus the
      truncated remainder of `lower`, modulo 2^32. */
  lemma PackArithmetic(upper: int32, lower: int32)
    ensures Unsigned(PackExpr(upper, lower)) == ((upper % 16) * RANGE_SIZE + Rem(lower, MAX_VALUE + 1)) % TWO_32
  {
    RemBy16(upper);
    var t := Rem(upper, 16);
    var sh := ShiftLeft28(t);
    var l := Rem(lower, MAX_VALUE + 1);
    PackCongruence(t, upper % 16, sh, l, Add(sh, l));
  }

  /** An `int` whose bit pattern is `e * 2^28 + l` has top nibble `e` and low bits `l`. */
  lemma SplitNibble(x: int32, e: int, l: int)
    requires 0 <= e < 16 && 0 <= l < RANGE_SIZE && Unsigned(x) == e * RANGE_SIZE + l
    ensures TopNibble(x) == e && Low28(x) == l
  {
  }

  /** The bit pattern of the packed value when the counter is non-negative. */
  lemma PackNonNegative(upper: int32, lower: int32)
    requires 0 <= lower
    ensures Unsigned(PackExpr(upper, lower)) == (upper % 16) * RANGE_SIZE + lower % RANGE_SIZE
  {
    PackArithmetic(upper, lower);
    var n := (upper % 16) * RANGE_SIZE + lower % RANGE_SIZE;
    assert 0 <= n < TWO_32;
  }

  /** The shifted nibble depends on `upper` modulo 16 only, whatever its sign. */
  lemma ShiftedNibble(u1: int32, u2: int32)
    requires u1 % 16 == u2 % 16
    ensures ShiftLeft28(Rem(u1, 16)) == ShiftLeft28(Rem(u2, 16))
  {
    RemBy16(u1);
    RemBy16(u2);
    var t1, t2 := Rem(u1, 16), Rem(u2, 16);
    if t1 - t2 == 16 {
      WrapPeriodic(t2 * RANGE_SIZE);
      assert t1 * RANGE_SIZE == t2 * RANGE_SIZE + TWO_32;
    } else if t1 - t2 == -16 {
      WrapPeriodic(t1 * RANGE_SIZE);
      assert t2 * RANGE_SIZE == t1 * RANGE_SIZE + TWO_32;
    }
  }

  /** `concatSeqNo`: the range nibble `upper % 16` above a 28-bit counter.
      For a negative `lower` see `PackArithmetic`: unless `lower` is a
      multiple of 2^28, the truncated remainder is negative and borrows from
      the nibble. */
  function ConcatSeqNo(upper: int32, lower: int32): (r: int32)
    ensures 0 <= lower ==> Unsigned(r) == (upper % 16) * RANGE_SIZE + lower % RANGE_SIZE
    ensures 0 <= lower <= MAX_VALUE ==> TopNibble(r) == upper % 16 && Low28(r) == lower
  {
    if 0 <= lower then
      PackNonNegative(upper, lower);
      var r := PackExpr(upper, lower);
      SplitNibble(r, upper % 16, lower % RANGE_SIZE);
      r
    else
      PackExpr(upper, lower)
  }

  /** The counter after one `next`: MAX_VALUE wraps to DEFAULT_VALUE, so 0 is
      skipped; any other value is incremented as a Java `int`. */
  function Advance(v: int32): (r: int32)
    ensures v == MAX_VALUE ==> r == DEFAULT_VALUE
    ensures v != MAX_VALUE && v < INT_MAX ==> r == v + 1
    ensures v == INT_MAX ==> r == INT_MIN
    ensures MIN_VALUE <= v <= MAX_VALUE ==> DEFAULT_VALUE <= r <= MAX_VALUE
  {
    if v == MAX_VALUE then DEFAULT_VALUE else Add(v, 1)
  }

  /** `peek`: the identifier the next `next` returns; the state is untouched. */
  function Peek(s: SequenceNumber): (r: int32)
    ensures InRange(s) ==> TopNibble(r) == s.rangeNibble % 16 && Low28(r) == s.value
  {
    ConcatSeqNo(s.rangeNibble, s.value)
  }

  /** `next`: returns the identifier of the counter before the call, then
      advances the counter; the range nibble stays. */
  function Next(s: SequenceNumber): (r: Issued)
    ensures r.id == Peek(s)
    ensures r.state.rangeNibble == s.rangeNibble
    ensures r.state.value == Advance(s.value)
    ensures InRange(s) ==> Steady(r.state)
  {
    var nextValue := s.value;
    Issued(s.(value := Advance(s.value)), ConcatSeqNo(s.rangeNibble, nextValue))
  }

  /** `reset`: the counter goes back to DEFAULT_VALUE; the range nibble stays. */
  function Reset(s: SequenceNumber): (r: SequenceNumber)
    ensures r.rangeNibble == s.rangeNibble
    ensures Steady(r)
    ensures TopNibble(Peek(r)) == s.rangeNibble % 16 && Low28(Peek(r)) == DEFAULT_VALUE
  {
    s.(value := DEFAULT_VALUE)
  }

  /** `assertValid`: its range check is disabled, so every `int` passes. */
  function AssertValid(sequenceNumber: int32): (r: Outcome<InvalidSequenceNumber>)
    ensures r.Pass?
  {
    Pass
  }

  /** The no-argument constructor: the new generator takes the current
      instance index as its nibble and starts at DEFAULT_VALUE; the index
      is then incremented as a Java `int`. */
  function Create(a: Allocator): (r: Created)
    ensures r.seqNum.rangeNibble == a.instanceIndex
    ensures r.seqNum.value == DEFAULT_VALUE
    ensures a.instanceIndex < INT_MAX ==> r.allocator.instanceIndex == a.instanceIndex + 1
    ensures a.instanceIndex == INT_MAX ==> r.allocator.instanceIndex == INT_MIN
  {
    Created(Allocator(Add(a.instanceIndex, 1)), SequenceNumber(a.instanceIndex, DEFAULT_VALUE))
  }

  /** The `int` constructor: as `Create`, but the counter starts at
      `initialValue`. The nibble is taken before `assertValid` runs and the
      index is only incremented after it passes; it always passes. */
  function CreateWith(a: Allocator, initialValue: int32): (r: Result<Created, InvalidSequenceNumber>)
    ensures r.Success?
    ensures r.value.seqNum.rangeNibble == a.instanceIndex
    ensures r.value.seqNum.value == initialValue
    ensures r.value.allocator == Create(a).allocator
  {
    var rangeNibble := a.instanceIndex;
    match AssertValid(initialValue)
    case Fail(e) => Failure(e)
    case Pass =>
      Success(Created(Allocator(Add(a.instanceIndex, 1)), SequenceNumber(rangeNibble, initialValue)))
  }

  // ---------------------------------------------------------------------------
  // Sequences of calls. Each Java method is `synchronized`, so any set of
  // callers on one generator observes some sequence of atomic steps.

  /** A call on a generator. */
  datatype Call = NextCall | PeekCall | ResetCall

  /** What a call returns: an identifier, or nothing for `reset`. */
  datatype Reply = Returned(id: int32) | Completed

  /** The generator after one call, and that call's reply. */
  datatype Stepped = Stepped(state: SequenceNumber, reply: Reply)

  /** The generator after a sequence of calls, and their replies in order. */
  datatype Trace = Trace(state: SequenceNumber, replies: seq<Reply>)

  /** One call on `s`. */
  function Step(s: SequenceNumber, c: Call): (r: Stepped)
    ensures r.state.rangeNibble == s.rangeNibble
    ensures c == PeekCall ==> r.state == s
    ensures r.reply.Returned? <==> c != ResetCall
    ensures c != ResetCall ==> r.reply.id == Peek(s)
    ensures InRange(s) ==> InRange(r.state)
    ensures InRange(s) && c != PeekCall ==> Steady(r.state)
  {
    match c
    case NextCall =>
      var i := Next(s);
      Stepped(i.state, Returned(i.id))
    case PeekCall => Stepped(s, Returned(Peek(s)))
    case ResetCall => Stepped(Reset(s), Completed)
  }

  /** The calls `calls`, in order, on `s`. */
  function Run(s: SequenceNumber, calls: seq<Call>): (r: Trace)
    ensures |r.replies| == |calls|
    ensures r.state.rangeNibble == s.rangeNibble
    ensures InRange(s) ==> InRange(r.state)
    ensures Steady(s) ==> Steady(r.state)
    decreases |calls|
  {
    if calls == [] then Trace(s, [])
    else
      var st := Step(s, calls[0]);
      var rest := Run(st.state, calls[1..]);
      Trace(rest.state, [st.reply] + rest.replies)
  }

  /** The generator after `k` calls of `next`, and the identifiers they returned. */
  datatype Batch = Batch(state: SequenceNumber, ids: seq<int32>)

  /** `k` calls of `next` on `s`. */
  function Issue(s: SequenceNumber, k: nat): (r: Batch)
    ensures |r.ids| == k
    ensures r.state.rangeNibble == s.rangeNibble
    ensures InRange(s) ==> InRange(r.state)
    ensures InRange(s) && k > 0 ==> Steady(r.state)
  {
    if k == 0 then Batch(s, [])
    else
      var b := Issue(s, k - 1);
      var i := Next(b.state);
      Batch(i.state, b.ids + [i.id])
  }

  /** The instance index after constructions, and the generators they built in order. */
  datatype Fleet = Fleet(allocator: Allocator, generators: seq<SequenceNumber>)

  /** `n` no-argument constructions starting from index `a`. */
  function CreateMany(a: Allocator, n: nat): (r: Fleet)
    ensures |r.generators| == n
    ensures forall i :: 0 <= i < n ==> r.generators[i].value == DEFAULT_VALUE
  {
    if n == 0 then Fleet(a, [])
    else
      var f := CreateMany(a, n - 1);
      var c := Create(f.allocator);
      Fleet(c.allocator, f.generators + [c.seqNum])
  }
}