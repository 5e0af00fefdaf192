/** The values of a `for` loop at run time (services/test-agent/loop_executor.go, lines 99 to 131) and
    the ranges the validator accepts (shared/definition-validator/validate-loops.ts, lines 284 to 343). */
module ForRange {
  import opened Bytes
  import opened Options
  import opened Strconv

  const MAX_ITERATIONS := 10000

  predicate IsInt64(i: int) { MIN_INT64 <= i <= MAX_INT64 }

  /** A range as both sides see it; a missing step is 0 at run time. */
  datatype Range = Range(from: int, to: int, step: int)

  function StepOf(r: Range): (s: int)
    ensures s != 0
  {
    if r.step == 0 then 1 else r.step
  }

  // ---------- run time ----------

  predicate InBounds(r: Range, v: int) {
    if StepOf(r) > 0 then v <= r.to else v >= r.to
  }

  /** The loop's values from `v` on, when `room` more fit under the cap; the counter wraps like int64. */
  function ValuesFrom(r: Range, v: int, room: nat): (s: seq<int>)
    ensures |s| <= room
    decreases room
  {
    if room == 0 || !InBounds(r, v) then [] else [v] + ValuesFrom(r, ToInt64(v + StepOf(r)), room - 1)
  }

  method ForRangeValues(r: Range) returns (values: seq<int>)
    ensures values == ValuesFrom(r, r.from, MAX_ITERATIONS)
  {
    if StepOf(r) > 0 {
      values := Ascending(r, MAX_ITERATIONS);
    } else {
      values := Descending(r, MAX_ITERATIONS);
    }
  }

  method Ascending(r: Range, cap: nat) returns (values: seq<int>)
    requires StepOf(r) > 0
    ensures values == ValuesFrom(r, r.from, cap)
  {
    hide ToInt64;
    values := [];
    var v := r.from;
    while v <= r.to && |values| < cap
      invariant |values| <= cap
      invariant values + ValuesFrom(r, v, cap - |values|) == ValuesFrom(r, r.from, cap)
      decreases cap - |values|
    {
      AppendOne(values, v, ValuesFrom(r, ToInt64(v + StepOf(r)), cap - |values| - 1));
      values := values + [v];
      v := ToInt64(v + StepOf(r));
    }
  }

  method Descending(r: Range, cap: nat) returns (values: seq<int>)
    requires StepOf(r) < 0
    ensures values == ValuesFrom(r, r.from, cap)
  {
    hide ToInt64;
    values := [];
    var v := r.from;
    while v >= r.to && |values| < cap
      invariant |values| <= cap
      invariant values + ValuesFrom(r, v, cap - |values|) == ValuesFrom(r, r.from, cap)
      decreases cap - |values|
    {
      AppendOne(values, v, ValuesFrom(r, ToInt64(v + StepOf(r)), cap - |values| - 1));
      values := values + [v];
      v := ToInt64(v + StepOf(r));
    }
  }

  lemma AppendOne(values: seq<int>, v: int, rest: seq<int>)
    ensures values + ([v] + rest) == values + [v] + rest
  {
  }

  // ---------- validation ----------

  /** The validator's count: floor division, one more than the number of whole steps. */
  function Count(r: Range): int {
    var s := StepOf(r);
    if s > 0 then FloorDiv(r.to - r.from, s) + 1 else FloorDiv(r.from - r.to, -s) + 1
  }

  function FloorDiv(a: int, b: int): int
    requires b > 0
  {
    a / b
  }

  datatype RangeError = StepIsZero | AscendingBounds | DescendingBounds | TooManyIterations

  /** The errors validateForLoop records for integer fields; `step` is None when the key is missing. */
  function Errors(from: int, to: int, step: Option<int>): seq<RangeError> {
    var bounds :=
      if step == None then (if from > to then [AscendingBounds] else [])
      else if step.value == 0 then [StepIsZero]
      else if step.value > 0 && from > to then [AscendingBounds]
      else if step.value < 0 && from < to then [DescendingBounds]
      else [];
    var size :=
      if step != Some(0) && Count(Range(from, to, step.GetOr(1))) > MAX_ITERATIONS then [TooManyIterations] else [];
    bounds + size
  }

  function RangeOf(from: int, to: int, step: Option<int>): Range {
    Range(from, to, step.GetOr(0))
  }

  // ---------- agreement ----------

  /** from, from + step, from + 2 step, ... : `n` terms of the progression. */
  function Progression(from: int, step: int, n: nat): (s: seq<int>)
    ensures |s| == n
  {
    seq(n, i => from + i * step)
  }

  lemma AcceptedCount(from: int, to: int, step: Option<int>)
    requires Errors(from, to, step) == []
    ensures var r := RangeOf(from, to, step);
            1 <= Count(r) <= MAX_ITERATIONS && (StepOf(r) > 0 ==> from <= to) && (StepOf(r) < 0 ==> from >= to)
  {
    var r := RangeOf(from, to, step);
    assert Count(r) == Count(Range(from, to, step.GetOr(1)));
  }

  /** The k-th term is in bounds exactly when k is below the count. */
  lemma TermInBounds(r: Range, k: nat)
    requires (StepOf(r) > 0 ==> r.from <= r.to) && (StepOf(r) < 0 ==> r.from >= r.to)
    ensures InBounds(r, r.from + k * StepOf(r)) <==> k < Count(r)
  {
    var s := StepOf(r);
    if s > 0 {
      CountsWholeSteps(r.to - r.from, s, k);
    } else {
      CountsWholeSteps(r.from - r.to, -s, k);
      assert k * -s == -(k * s);
    }
  }

  lemma CountsWholeSteps(d: int, s: int, k: nat)
    requires d >= 0 && s > 0
    ensures k * s <= d <==> k < d / s + 1
  {
    var q, rem := d / s, d % s;
    assert d == s * q + rem;
    if k <= q {
      assert k * s <= q * s;
    } else {
      assert k * s >= (q + 1) * s == q * s + s;
    }
  }

  /** As long as no term after the first `n` wraps, the loop yields the progression. */
  lemma {:induction false} ValuesAreTerms(r: Range, k: nat, room: nat)
    requires (StepOf(r) > 0 ==> r.from <= r.to) && (StepOf(r) < 0 ==> r.from >= r.to)
    requires k <= Count(r) <= k + room
    requires IsInt64(r.from) && IsInt64(r.to)
    requires Count(r) < k + room ==> IsInt64(r.from + Count(r) * StepOf(r))
    ensures ValuesFrom(r, r.from + k * StepOf(r), room) == Progression(r.from, StepOf(r), Count(r))[k..]
    decreases room
  {
    var s, n := StepOf(r), Count(r);
    var p := Progression(r.from, s, n);
    TermInBounds(r, k);
    if k < n {
      assert r.from + k * s + s == r.from + (k + 1) * s;
      TermInBounds(r, k + 1);
      if k + 1 < n || room > 1 {
        TermFits(r, k + 1);
        ValuesAreTerms(r, k + 1, room - 1);
      } else {
        assert ValuesFrom(r, ToInt64(r.from + k * s + s), 0) == [];
        assert p[k + 1..] == [];
      }
      assert p[k..] == [p[k]] + p[k + 1..];
    } else {
      assert p[k..] == [];
    }
  }

  /** A term is a 64-bit integer when it is in bounds, or is the first out of bounds and fits. */
  lemma TermFits(r: Range, k: nat)
    requires (StepOf(r) > 0 ==> r.from <= r.to) && (StepOf(r) < 0 ==> r.from >= r.to)
    requires IsInt64(r.from) && IsInt64(r.to) && k <= Count(r)
    requires k < Count(r) || IsInt64(r.from + k * StepOf(r))
    ensures ToInt64(r.from + k * StepOf(r)) == r.from + k * StepOf(r)
  {
    TermInBounds(r, k);
    var s := StepOf(r);
    if s > 0 {
      assert k * s >= 0;
    } else {
      assert k * s <= 0;
    }
  }

  /** A range that stays within 64 bits one step past its last value, or fills the cap. */
  predicate NoWrap(r: Range) {
    Count(r) == MAX_ITERATIONS || IsInt64(r.from + Count(r) * StepOf(r))
  }

  lemma NoWrapMeansFits(r: Range)
    ensures NoWrap(r) <==> Count(r) == MAX_ITERATIONS || IsInt64(r.from + Count(r) * StepOf(r))
  {
    hide Count;
  }

  /** When the term after the last wraps, it lands back inside the bounds and is yielded. */
  lemma WrappedTermIsYielded(r: Range)
    requires (StepOf(r) > 0 ==> r.from <= r.to) && (StepOf(r) < 0 ==> r.from >= r.to)
    requires 1 <= Count(r) < MAX_ITERATIONS && !NoWrap(r)
    requires IsInt64(r.from) && IsInt64(r.to) && IsInt64(r.step)
    ensures InBounds(r, ToInt64(r.from + Count(r) * StepOf(r)))
  {
    hide Count, ToInt64;
    var n := Count(r);
    TermInBounds(r, n - 1);
    LastTermFits(r, n);
    WrapLandsInBounds(r.from + (n - 1) * StepOf(r), StepOf(r), r.to);
  }

  lemma LastTermFits(r: Range, n: nat)
    requires n > 0 && IsInt64(r.from) && IsInt64(r.to) && InBounds(r, r.from + (n - 1) * StepOf(r))
    ensures IsInt64(r.from + (n - 1) * StepOf(r))
    ensures r.from + n * StepOf(r) == r.from + (n - 1) * StepOf(r) + StepOf(r)
  {
    var s, m := StepOf(r), n - 1;
    assert (m + 1) * s == m * s + s;
    if s > 0 {
      assert m * s >= 0;
    } else {
      assert m * s <= 0;
    }
  }

  /** One step beyond 64 bits from inside the bounds lands far on the other side. */
  lemma WrapLandsInBounds(v: int, s: int, to: int)
    requires IsInt64(v) && IsInt64(s) && IsInt64(to) && !IsInt64(v + s)
    ensures s > 0 && v <= to ==> ToInt64(v + s) <= to
    ensures s < 0 && v >= to ==> ToInt64(v + s) >= to
  {
  }

  lemma {:induction false} LeadingTerms(r: Range, k: nat, room: nat)
    requires (StepOf(r) > 0 ==> r.from <= r.to) && (StepOf(r) < 0 ==> r.from >= r.to)
    requires IsInt64(r.from) && IsInt64(r.to) && IsInt64(r.step)
    requires k < Count(r) < k + room && k + room <= MAX_ITERATIONS && !NoWrap(r)
    ensures |ValuesFrom(r, r.from + k * StepOf(r), room)| > Count(r) - k
    decreases room
  {
    hide ToInt64, Count, InBounds, NoWrap;
    var s := StepOf(r);
    TermInBounds(r, k);
    assert r.from + k * s + s == r.from + (k + 1) * s;
    if k + 1 < Count(r) {
      TermFits(r, k + 1);
      LeadingTerms(r, k + 1, room - 1);
    } else {
      WrappedTermIsYielded(r);
      assert |ValuesFrom(r, ToInt64(r.from + (k + 1) * s), room - 1)| >= 1;
    }
  }

  /** For every range the validator accepts, the run-time loop yields exactly the validator's count of
      terms, from, from + step, ..., and the cap cuts nothing off, if and only if the counter does not
      wrap past the last term. */
  lemma RunTimeAgreesWithValidatorIff(from: int, to: int, step: Option<int>)
    requires Errors(from, to, step) == []
    requires IsInt64(from) && IsInt64(to) && (step.Some? ==> IsInt64(step.value))
    ensures var r := RangeOf(from, to, step);
            Count(r) >= 0 &&
            (ValuesFrom(r, from, MAX_ITERATIONS) == Progression(from, StepOf(r), Count(r)) <==> NoWrap(r))
  {
    hide Count, ValuesFrom, NoWrap;
    var r := RangeOf(from, to, step);
    AcceptedCount(from, to, step);
    assert from + 0 * StepOf(r) == from;
    assert Progression(from, StepOf(r), Count(r))[0..] == Progression(from, StepOf(r), Count(r));
    NoWrapMeansFits(r);
    if NoWrap(r) {
      ValuesAreTerms(r, 0, MAX_ITERATIONS);
    } else {
      LeadingTerms(r, 0, MAX_ITERATIONS);
    }
  }

  /** An accepted range of one term whose counter wraps: the loop goes on below it. */
  lemma WrappingRange()
    ensures var big := 0x4000_0000_0000_0000;
            && Errors(big, big, Some(big)) == [] && Count(Range(big, big, big)) == 1
            && ValuesFrom(Range(big, big, big), big, MAX_ITERATIONS) != [big]
  {
    var big := 0x4000_0000_0000_0000;
    RunTimeAgreesWithValidatorIff(big, big, Some(big));
    hide ValuesFrom;
    assert !NoWrap(Range(big, big, big));
    assert Progression(big, big, 1) == [big];
  }

  /** The progression of an accepted range is in bounds and one more term would not be. */
  lemma AcceptedTermsFillTheRange(from: int, to: int, step: Option<int>, k: nat)
    requires Errors(from, to, step) == []
    ensures var r := RangeOf(from, to, step);
            InBounds(r, from + k * StepOf(r)) <==> k < Count(r)
  {
    AcceptedCount(from, to, step);
    TermInBounds(RangeOf(from, to, step), k);
  }
}
