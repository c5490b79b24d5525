# SMPP sequence-number generator, modelled in Dafny

This project models `com.cloudhopper.smpp.util.SequenceNumber` from the
cloudhopper SMPP library. The class hands out the 32-bit `sequence_number`
that every SMPP PDU header carries and that a response echoes back
(section 2.2.2 of the SMPP v3.4 specification). One generator serves one
bind. An identifier is a 4-bit range nibble above a 28-bit counter:

- the nibble is the process-wide `instanceIndex` at the time the generator
  was built, taken modulo 16 when it is packed;
- the counter starts at 1 (`DEFAULT_VALUE`), or at any `int` given to the
  second constructor, and `next` wraps it from `MAX_VALUE = 0xFFFFFFF` back to 1.

Generators built one after another get consecutive nibbles. So up to 16
binds hand out disjoint sets of identifiers, and a delivery receipt can be
routed back to its bind by the top nibble of its sequence number.

Layout:

- `java_int.dfy` (module `JavaInt`): Java `int` arithmetic over unbounded
  integers. Addition and `<< 28` wrap modulo 2^32. `%` truncates toward zero.
  `Unsigned`, `TopNibble` and `Low28` read an `int`'s bit pattern.
- `wrappers.dfy` (module `Wrappers`): `Result` and `Outcome`, for the
  checked exception of the `int` constructor.
- `sequence_number.dfy` (module `SequenceNumbers`): the class as an immutable
  record `SequenceNumber(rangeNibble, value)`, with one pure function per
  Java member. The static `instanceIndex` is an explicit `Allocator` value
  that the constructors take and return. `Step`, `Run`, `Issue` and
  `CreateMany` apply sequences of calls and constructions.
- `sequence_number_properties.dfy` (module `SequenceNumberProperties`): the
  promises about packing, the counter cycle, `peek`, `reset` and nibble
  assignment.
- `sequence_number_usage.dfy` (module `SequenceNumberUsage`): the unit
  test's scenario, replayed as lemmas.

Three points of the code matter for the model:

- The class comment gives the wrap point as 0x7FFFFFFF. The code wraps at
  `MAX_VALUE = 0xFFFFFFF`.
- The code combines the two fields with `+` after a truncating `%`. For a
  counter in [0, MAX_VALUE] the fields do not overlap, so `+` gives the same
  bits as a bitwise OR would. `ConcatSeqNo`'s contract gives the bit pattern
  for every non-negative counter. `PackArithmetic` gives it for every pair
  of `int`s. For a negative counter that is not a multiple of 2^28 the
  truncated remainder is negative and borrows from the nibble
  (`NegativeCounterBorrows`). A negative multiple of 2^28, INT_MIN among
  them, has remainder 0 and packs to the nibble alone
  (`NegativeMultiplePacksNibble`).
- `rangeNibble` holds the raw instance index, not a value in [0, 15]. Only
  `concatSeqNo` reduces it modulo 16.

## Model

All source paths are in `src/main/java/com/cloudhopper/smpp/util/` (class)
or `src/test/java/com/cloudhopper/smpp/util/` (test).

| member | source | states |
|---|---|---|
| JavaInt.Add | src/main/java/com/cloudhopper/smpp/util/SequenceNumber.java:69 | Java `int` addition: the result is congruent to the true sum modulo 2^32, and equals it when the sum fits |
| JavaInt.Rem | src/main/java/com/cloudhopper/smpp/util/SequenceNumber.java:69 | Java `%` with a positive divisor (section 15.17.3 of the Java Language Specification): `a - r` is a multiple of the divisor, the magnitude is below the divisor, and the sign is the dividend's |
| JavaInt.RemDetermined | src/main/java/com/cloudhopper/smpp/util/SequenceNumber.java:69 | those four properties leave exactly one value: any number that has them is `Rem(a, b)` |
| JavaInt.ShiftLeft28 | src/main/java/com/cloudhopper/smpp/util/SequenceNumber.java:69 | Java `<< 28`: the result is `a * 2^28` reduced modulo 2^32 |
| SequenceNumbers.PackArithmetic | src/main/java/com/cloudhopper/smpp/util/SequenceNumber.java:69 | for every pair of `int`s, the packed bit pattern is `(upper mod 16) * 2^28` plus the truncated remainder of `lower`, modulo 2^32 |
| SequenceNumbers.ShiftedNibble | src/main/java/com/cloudhopper/smpp/util/SequenceNumber.java:69 | the shifted nibble depends only on `upper mod 16`, for negative `upper` too |
| SequenceNumbers.ConcatSeqNo | src/main/java/com/cloudhopper/smpp/util/SequenceNumber.java:68-70 | for a non-negative counter, the bit pattern is `(upper mod 16) * 2^28` plus the counter's low 28 bits; for a counter in [0, MAX_VALUE] the top nibble is `upper mod 16` and the low 28 bits are the counter |
| SequenceNumbers.Advance | src/main/java/com/cloudhopper/smpp/util/SequenceNumber.java:79-84 | MAX_VALUE goes to 1; any other value goes to value + 1 as a Java `int` (INT_MAX to INT_MIN); a counter in [0, MAX_VALUE] lands in [1, MAX_VALUE] |
| SequenceNumbers.Peek | src/main/java/com/cloudhopper/smpp/util/SequenceNumber.java:96-98 | for an in-range counter, the identifier carries the nibble mod 16 and the current counter |
| SequenceNumbers.Next | src/main/java/com/cloudhopper/smpp/util/SequenceNumber.java:75-87 | returns what `peek` shows (the counter before the call), advances only the counter, keeps the nibble, and leaves an in-range counter in [1, MAX_VALUE] |
| SequenceNumbers.Reset | src/main/java/com/cloudhopper/smpp/util/SequenceNumber.java:104-106 | keeps the nibble and sets the counter to 1, so the next `peek` shows counter 1 under the same nibble |
| SequenceNumbers.AssertValid | src/main/java/com/cloudhopper/smpp/util/SequenceNumber.java:108-117 | accepts every `int` |
| SequenceNumbers.Create | src/main/java/com/cloudhopper/smpp/util/SequenceNumber.java:55-59 | the new generator has the old instance index as nibble and counter 1; the index grows by 1 as a Java `int` |
| SequenceNumbers.CreateWith | src/main/java/com/cloudhopper/smpp/util/SequenceNumber.java:61-66 | never throws; the new generator has the old index as nibble and the given counter; the index advances as for `Create` |
| SequenceNumbers.Step | src/main/java/com/cloudhopper/smpp/util/SequenceNumber.java:75-106 | one call: `peek` leaves the state unchanged, `next` and `peek` reply with the current identifier, `reset` replies with nothing; the nibble never changes; in-range counters stay in range |
| SequenceNumbers.Run | src/main/java/com/cloudhopper/smpp/util/SequenceNumber.java:72-106 | any sequence of calls keeps the nibble and keeps the counter in [0, MAX_VALUE] (in [1, MAX_VALUE] if it started there); one reply per call |
| SequenceNumbers.Issue | src/main/java/com/cloudhopper/smpp/util/SequenceNumber.java:75-87 | `k` calls of `next` give `k` identifiers, keep the nibble, and leave an in-range counter in [1, MAX_VALUE] after at least one call |
| SequenceNumbers.CreateMany | src/main/java/com/cloudhopper/smpp/util/SequenceNumber.java:50-59 | `n` no-argument constructions build `n` generators, each starting at counter 1 |
| SequenceNumberProperties.PackInjective | src/main/java/com/cloudhopper/smpp/util/SequenceNumber.java:68-70 | with in-range counters, two identifiers are equal if and only if the nibbles agree mod 16 and the counters are equal |
| SequenceNumberProperties.DistinctNibblesDisjoint | src/main/java/com/cloudhopper/smpp/util/SequenceNumber.java:41-49 | nibbles that differ mod 16 never give the same identifier for in-range counters |
| SequenceNumberProperties.SameNibbleSameIds | src/main/java/com/cloudhopper/smpp/util/SequenceNumber.java:68-70 | nibbles equal mod 16 give the same identifier for every counter |
| SequenceNumberProperties.PeekRepeats | src/main/java/com/cloudhopper/smpp/util/SequenceNumber.java:89-98 | `n` calls of `peek` leave the state unchanged and all return the value the following `next` returns |
| SequenceNumberProperties.ResetForgetsHistory | src/main/java/com/cloudhopper/smpp/util/SequenceNumber.java:100-106 | after `reset`, behaviour depends only on the nibble; the next `peek` and `next` both return the identifier of counter 1 |
| SequenceNumberProperties.RunAppendState | src/main/java/com/cloudhopper/smpp/util/SequenceNumber.java:72-106 | `Run` is compositional in its final state: running `a` then `b` ends where running `a + b` ends; a helper for `IssueIsRun` and `SecondGeneratorReplies` |
| SequenceNumberProperties.RunAppendReplies | src/main/java/com/cloudhopper/smpp/util/SequenceNumber.java:72-106 | `Run` is compositional in its replies: the replies to `a + b` are those to `a` followed by those `b` gets from where `a` left the generator |
| SequenceNumberProperties.RunAppend | src/main/java/com/cloudhopper/smpp/util/SequenceNumber.java:72-106 | `Run` is compositional: running two call sequences one after the other is running their concatenation, state and replies |
| SequenceNumberProperties.IssueIsRun | src/main/java/com/cloudhopper/smpp/util/SequenceNumber.java:75-87 | `k` calls of `next` through `Run` give the same final state and replies as `Issue` |
| SequenceNumberProperties.AdvanceAlongCycle | src/main/java/com/cloudhopper/smpp/util/SequenceNumber.java:79-84 | one `next` moves the counter one place along the cycle 1, ..., MAX_VALUE, 1, ... |
| SequenceNumberProperties.IssueClosedForm | src/main/java/com/cloudhopper/smpp/util/SequenceNumber.java:75-87 | from counter `v` in [1, MAX_VALUE], the `i`-th `next` returns counter `1 + (v - 1 + i) mod MAX_VALUE` under the nibble |
| SequenceNumberProperties.WrapSkipsZero | src/main/java/com/cloudhopper/smpp/util/SequenceNumber.java:79-84 | emitting counter MAX_VALUE is followed by emitting counter 1 |
| SequenceNumberProperties.IssueNoDuplicates | src/main/java/com/cloudhopper/smpp/util/SequenceNumber.java:75-87 | up to MAX_VALUE consecutive `next` calls from [1, MAX_VALUE] never repeat an identifier |
| SequenceNumberProperties.IssuePeriod | src/main/java/com/cloudhopper/smpp/util/SequenceNumber.java:79-84 | from a counter in [1, MAX_VALUE], MAX_VALUE consecutive `next` calls bring the counter back to its start |
| SequenceNumberProperties.IssueFullCycle | src/main/java/com/cloudhopper/smpp/util/SequenceNumber.java:79-84 | from a counter in [1, MAX_VALUE], MAX_VALUE consecutive `next` calls return every counter in [1, MAX_VALUE]: no gaps |
| SequenceNumberProperties.IssueFront | src/main/java/com/cloudhopper/smpp/util/SequenceNumber.java:75-87 | `k + 1` calls of `next` are one call followed by `k` more, in final state and in the identifiers returned |
| SequenceNumberProperties.StartAtZeroNoDuplicates | src/main/java/com/cloudhopper/smpp/util/SequenceNumber.java:32-34 | a generator started at counter 0 returns pairwise different identifiers over up to MAX_VALUE + 1 consecutive `next` calls: counter 0 once, then the cycle from 1 |
| SequenceNumberProperties.IssuePeeks | src/main/java/com/cloudhopper/smpp/util/SequenceNumber.java:89-95 | the `i`-th `next` returns what `peek` showed after the first `i` calls |
| SequenceNumberProperties.IssueKeepsNibble | src/main/java/com/cloudhopper/smpp/util/SequenceNumber.java:32-39 | from an in-range counter every identifier carries the nibble mod 16; only the first can carry counter 0 |
| SequenceNumberProperties.GeneratorsDisjoint | src/main/java/com/cloudhopper/smpp/util/SequenceNumber.java:41-49 | two in-range generators whose nibbles differ mod 16 never return a common identifier, however many times `next` is called on each |
| SequenceNumberProperties.CreateManyNibbles | src/main/java/com/cloudhopper/smpp/util/SequenceNumber.java:50-59 | the `i`-th construction from index `a` gets nibble `a + i` mod 16, also across the index's overflow past INT_MAX |
| SequenceNumberProperties.CreateManyIndices | src/main/java/com/cloudhopper/smpp/util/SequenceNumber.java:55-59 | while the index does not overflow, the `i`-th construction gets nibble exactly `a + i` and the index grows by exactly 1 per construction |
| SequenceNumberProperties.SixteenGeneratorsDisjoint | src/main/java/com/cloudhopper/smpp/util/SequenceNumber.java:41-49 | any two of up to 16 consecutive no-argument constructions have nibbles that differ mod 16, and so disjoint identifiers for in-range counters |
| SequenceNumberProperties.SeventeenthGeneratorCollides | src/main/java/com/cloudhopper/smpp/util/SequenceNumber.java:45-48 | the 17th generator has the first one's nibble mod 16, and so the same identifiers |
| SequenceNumberProperties.NegativeCounterBorrows | src/main/java/com/cloudhopper/smpp/util/SequenceNumber.java:108-117 | a negative counter that is not a multiple of 2^28 gives an identifier with nibble `upper - 1` mod 16, in the previous generator's range |
| SequenceNumberProperties.NegativeMultiplePacksNibble | src/main/java/com/cloudhopper/smpp/util/SequenceNumber.java:68-70 | a negative counter that is a multiple of 2^28, INT_MIN included, has truncated remainder 0: the identifier's bit pattern is the nibble `upper` mod 16 alone, with low 28 bits 0 |
| SequenceNumberProperties.OutOfRangeCounters | src/main/java/com/cloudhopper/smpp/util/SequenceNumber.java:108-117 | `SequenceNumber(-1)` is accepted; counter -1 under nibble 1 collides with counter MAX_VALUE under nibble 0; INT_MAX advances to INT_MIN |
| SequenceNumberUsage.FirstGenerator | src/test/java/com/cloudhopper/smpp/util/SequenceNumberTest.java:30-34 | the first generator of a fresh process has nibble 0 and returns 1, 2, 3, 4 |
| SequenceNumberUsage.SecondGenerator | src/test/java/com/cloudhopper/smpp/util/SequenceNumberTest.java:36-38 | the second generator, built with 0xFFFFFFF, has nibble 1 and counter 0xFFFFFFF |
| SequenceNumberUsage.SecondGeneratorReplies | src/test/java/com/cloudhopper/smpp/util/SequenceNumberTest.java:39-51 | the second generator's calls return 0x1FFFFFFF, 0x10000001, 0x10000002, 0x10000003, peek 0x10000004, reset, peek 0x10000001, then 0x10000001, 0x10000002, 0x10000003 |
| SequenceNumberUsage.Usage | src/test/java/com/cloudhopper/smpp/util/SequenceNumberTest.java:28-52 | the whole test scenario from a fresh process |

## Left out

- `synchronized`: each method is one atomic step. Concurrent callers on one
  generator therefore see some sequence of calls, which `Run` covers. Locks
  and interleavings are not modelled.
- The unsynchronized `instanceIndex++` race between concurrent constructors
  is a concurrency concern and is not modelled.
- The static `instanceIndex` is not hidden global state here. It is an
  `Allocator` value that the constructors take and return.
- The commented-out strict range check in `assertValid` is dead code and is
  not modelled. `InvalidSequenceNumberException` is not part of this model.
  It appears only as the never-raised `Failure` case of `CreateWith`.
- `rangeNibble` is a public mutable field in Java. Writes to it from outside
  the class are not modelled.
- Counters outside [0, MAX_VALUE] are computed with Java's 32-bit wrapping.
  The invariants and the disjointness lemmas are stated for counters in
  [0, MAX_VALUE] only. The cycle lemmas (`IssueClosedForm`,
  `IssueNoDuplicates`, `IssuePeriod`, `IssueFullCycle`) need a counter in
  [1, MAX_VALUE]. A generator started at 0 is covered by `IssueFront` and
  `StartAtZeroNoDuplicates`: it returns counter 0 once and never again, so
  `IssuePeriod` and `IssueFullCycle` do not hold for it as stated, and
  MAX_VALUE calls from 0 end at counter MAX_VALUE. Outside [0, MAX_VALUE] the packing is
  characterised by `PackArithmetic` (every `int`), `ConcatSeqNo` (every
  non-negative counter, above MAX_VALUE too), `SameNibbleSameIds` (every
  counter), `NegativeCounterBorrows`, `NegativeMultiplePacksNibble` and
  `OutOfRangeCounters`.
- The stale 0x7FFFFFFF wrap point in the class comment is not modelled. The
  code's `MAX_VALUE` is.
