/**
  The 32-bit accumulators over whole runs. The quotient of one visit is the starting value of the
  next one, so the bound has to be kept from visit to visit; and the scan stops at its first
  saturated sample, so at most one sample of a visit exceeds 60500.
*/
module Averages {
  import opened MachineTypes
  import opened Modular
  import opened GainRing
  import opened LineScan
  import opened GainControl

  /** The largest value that a line can store when its frames have at most `segments` segments. */
  function StoredBound(segments: nat): nat { 121000 * segments + 5034 }

  /** The largest sum of a visit with `total` samples. */
  function SumBound(segments: nat, total: nat): nat { StoredBound(segments) + 60500 * total + 5035 }

  /** Two or more samples for each of up to `segments` segments, and at most `total` samples together. */
  ghost predicate Fits(i: Input, segments: nat, total: nat) {
    ValidInput(i) && 2 <= i.n && |i.samples| <= i.n * segments && |i.samples| <= total
  }

  /** Only the last sample of a scan can be saturated. */
  lemma {:induction false} ScanTotalBound(samples: seq<Word>)
    ensures ScanTotal(samples) <= 60500 * |samples| + 5035
  {
    if samples != [] {
      ScanTotalBound(samples[1..]);
    }
  }

  /** One visit: no wrap-around, and the quotient keeps the bound. */
  lemma VisitKeepsBound(average: Word32, i: Input, segments: nat, total: nat)
    requires Fits(i, segments, total) && SumBound(segments, total) < TWO32
    requires average <= StoredBound(segments)
    ensures average + ScanTotal(i.samples) <= SumBound(segments, total)
    ensures StoredAverage(average, i.samples, i.n) == (average + ScanTotal(i.samples)) / i.n <= StoredBound(segments)
  {
    ScanTotalBound(i.samples);
    VisitArithmetic(average, ScanTotal(i.samples), |i.samples|, i.n, segments, total);
  }

  lemma VisitArithmetic(average: nat, scanned: nat, size: nat, n: nat, segments: nat, total: nat)
    requires n >= 2 && size <= n * segments && size <= total
    requires average <= StoredBound(segments) && scanned <= 60500 * size + 5035
    ensures average + scanned <= SumBound(segments, total)
    ensures (average + scanned) / n <= StoredBound(segments)
  {
    assert average + scanned <= 60500 * (n * segments) + 121000 * segments + 10069;
    QuotientBound(average + scanned, n, segments);
  }

  lemma QuotientBound(sum: nat, n: nat, segments: nat)
    requires n >= 2
    requires sum <= 60500 * (n * segments) + 121000 * segments + 10069
    ensures sum / n <= StoredBound(segments)
  {
    var b := StoredBound(segments) + 1;
    assert n * b == 121000 * (n * segments) + 5035 * n;
    assert n * segments >= 2 * segments;
    assert sum < b * n;
    QuotientBelow(sum, b, n);
  }

  lemma QuotientBelow(sum: nat, b: nat, n: nat)
    requires n > 0 && sum < b * n
    ensures sum / n < b
  {
    var q := sum / n;
    assert (q - b) * n == q * n - b * n;
    AtLeastOneStep(q - b, n);
  }

  // ----- Runs of the whole task

  ghost predicate ValidInputs(inputs: seq<Input>) {
    forall k :: 0 <= k < |inputs| ==> ValidInput(inputs[k])
  }

  ghost predicate AllFit(inputs: seq<Input>, segments: nat, total: nat) {
    forall k :: 0 <= k < |inputs| ==> Fits(inputs[k], segments, total)
  }

  /** The gain task after the first `t` lines of a run. */
  ghost function RunTask(inputs: seq<Input>, t: nat): (s: TaskState)
    requires ValidInputs(inputs) && t <= |inputs|
    ensures ValidState(s)
  {
    if t == 0 then TaskStart() else TaskNext(RunTask(inputs, t - 1), inputs[t - 1])
  }

  ghost predicate AveragesBounded(s: TaskState, bound: nat)
    requires ValidState(s)
  {
    forall l :: 0 <= l < LINES ==> s.averages[l] <= bound
  }

  /** 97 parts of a slot, and of the mean of the slots, weigh at most 99 averages. */
  ghost predicate AccountsBounded(a: Accounts, bound: nat) {
    && ValidAccounts(a)
    && (forall k :: 0 <= k < 3 ==> 97 * a.slots[k] <= 99 * bound)
    && 97 * a.mean <= 99 * bound
  }

  lemma RevolutionKeepsBound(a: Accounts, averages: seq<Word32>, bound: nat)
    requires |averages| == LINES && bound <= 10_000_000
    requires forall l :: 0 <= l < LINES ==> averages[l] <= bound
    requires AccountsBounded(a, bound)
    ensures a.slots[a.slot] + Sum(averages[..ACCOUNTING_LINE + 1]) < TWO32
    ensures AccountsBounded(CloseRevolution(a, averages), bound)
  {
    var included := averages[..ACCOUNTING_LINE + 1];
    assert |included| == 99;
    SumBounds(included, bound);
    var joined := CloseSlot(a, averages);
    var before: int, sum: int, closed: int := a.slots[a.slot], Sum(included), joined[a.slot];
    assert closed == (before + sum) / 98;
    ClosedBound(before, sum, bound);
    ShiftKeepsBound(a, joined, bound);
  }

  lemma ShiftKeepsBound(a: Accounts, joined: seq<Word32>, bound: nat)
    requires AccountsBounded(a, bound) && |joined| == 3 && bound <= 10_000_000
    requires forall k :: 0 <= k < 3 ==> 97 * joined[k] <= 99 * bound
    ensures AccountsBounded(NextSlot(a, joined), bound)
  {
    SumOfThree(joined);
  }

  lemma ClosedBound(before: nat, sum: nat, bound: nat)
    requires 97 * before <= 99 * bound && sum <= 99 * bound
    ensures 97 * ((before + sum) / 98) <= 99 * bound
  {
  }

  /**
    In every run whose frames have 2 or more samples for each segment and fit the sizes, no
    accumulator of the gain task ever wraps: each stored average stays within its bound, each visit adds
    up to less than 2^32, and so do the revolution slots.
  */
  lemma {:induction false} NoAccumulatorWraps(inputs: seq<Input>, segments: nat, total: nat, t: nat)
    requires SumBound(segments, total) < TWO32 && segments <= 80
    requires AllFit(inputs, segments, total) && ValidInputs(inputs) && t <= |inputs|
    ensures AveragesBounded(RunTask(inputs, t), StoredBound(segments))
    ensures AccountsBounded(RunTask(inputs, t).accounts, StoredBound(segments))
    ensures t < |inputs| ==>
      RunTask(inputs, t).averages[inputs[t].index] + ScanTotal(inputs[t].samples) <= SumBound(segments, total)
  {
    if t > 0 {
      NoAccumulatorWraps(inputs, segments, total, t - 1);
      var before, last := RunTask(inputs, t - 1), inputs[t - 1];
      VisitKeepsBound(before.averages[last.index], last, segments, total);
      if last.index == ACCOUNTING_LINE {
        RevolutionKeepsBound(before.accounts, RunTask(inputs, t).averages, StoredBound(segments));
      }
    }
    if t < |inputs| {
      VisitKeepsBound(RunTask(inputs, t).averages[inputs[t].index], inputs[t], segments, total);
    }
  }

  // ----- The three revolution slots

  ghost predicate Revolutions(averages: seq<seq<Word32>>) {
    forall r :: 0 <= r < |averages| ==> |averages[r]| == LINES
  }

  /** The accounts after the first `r` revolutions, given the line averages at the end of each. */
  ghost function AccountsAfter(averages: seq<seq<Word32>>, r: nat): (a: Accounts)
    requires Revolutions(averages) && r <= |averages|
    ensures ValidAccounts(a)
  {
    if r == 0 then Accounts([0, 0, 0], 0, 0) else CloseRevolution(AccountsAfter(averages, r - 1), averages[r - 1])
  }

  /** The value that revolution `r` closes with: from the third one on the value before it is carried along. */
  ghost function ClosingValue(averages: seq<seq<Word32>>, r: nat): Word32
    requires Revolutions(averages) && r < |averages|
  {
    var carried: int := if r < 3 then 0 else ClosingValue(averages, r - 1);
    (carried + Sum(averages[r][..99])) % 0x1_0000_0000 / 98
  }

  /**
    Which revolutions the slots hold: from the third revolution on, the last two, and the last one
    again where the next sum will be added; the mean is that of the closing values of the last three.
  */
  ghost predicate HoldsLastRevolutions(a: Accounts, averages: seq<seq<Word32>>, r: nat)
    requires Revolutions(averages) && r <= |averages|
  {
    && a.slot == (if r < 2 then r else 2)
    && a.slots == (if r == 0 then [0, 0, 0]
                   else if r == 1 then [ClosingValue(averages, 0), 0, 0]
                   else if r == 2 then [ClosingValue(averages, 0), ClosingValue(averages, 1), 0]
                   else [ClosingValue(averages, r - 2), ClosingValue(averages, r - 1), ClosingValue(averages, r - 1)])
    && a.mean == (if r < 3 then 0
                  else Sum([ClosingValue(averages, r - 3), ClosingValue(averages, r - 2),
                            ClosingValue(averages, r - 1)]) % TWO32 / 3)
  }

  lemma {:induction false} SlotsHoldLastRevolutions(averages: seq<seq<Word32>>, r: nat)
    requires Revolutions(averages) && r <= |averages|
    ensures HoldsLastRevolutions(AccountsAfter(averages, r), averages, r)
  {
    if r > 0 {
      SlotsHoldLastRevolutions(averages, r - 1);
      OneRevolution(AccountsAfter(averages, r - 1), averages, r - 1);
    }
  }

  lemma OneRevolution(a: Accounts, averages: seq<seq<Word32>>, r: nat)
    requires Revolutions(averages) && r < |averages| && HoldsLastRevolutions(a, averages, r)
    ensures HoldsLastRevolutions(CloseRevolution(a, averages[r]), averages, r + 1)
  {
    var joined := CloseSlot(a, averages[r]);
    assert joined[a.slot] == ClosingValue(averages, r);
    if r >= 2 {
      assert joined == [ClosingValue(averages, r - 2), ClosingValue(averages, r - 1), ClosingValue(averages, r)];
    }
  }

  /** The line averages at each visit of line 98 during the first `t` lines of a run. */
  ghost function Closings(inputs: seq<Input>, t: nat): (averages: seq<seq<Word32>>)
    requires ValidInputs(inputs) && t <= |inputs|
    ensures Revolutions(averages)
  {
    if t == 0 then []
    else
      Closings(inputs, t - 1) + if inputs[t - 1].index == 98 then [RunTask(inputs, t).averages] else []
  }

  /** The accounts are those of the visits of line 98 so far. */
  ghost predicate AccountsOfClosings(inputs: seq<Input>, t: nat)
    requires ValidInputs(inputs) && t <= |inputs|
  {
    RunTask(inputs, t).accounts == AccountsAfter(Closings(inputs, t), |Closings(inputs, t)|)
  }

  /** In every run of the gain task the accounts are those of its visits of line 98. */
  lemma {:induction false} AccountsInTask(inputs: seq<Input>, t: nat)
    requires ValidInputs(inputs) && t <= |inputs|
    ensures AccountsOfClosings(inputs, t)
  {
    if t > 0 {
      AccountsInTask(inputs, t - 1);
      AccountsInTaskStep(inputs, t - 1);
    } else {
      AccountsAtStart(inputs);
    }
  }

  lemma AccountsAtStart(inputs: seq<Input>)
    requires ValidInputs(inputs)
    ensures AccountsOfClosings(inputs, 0)
  {
  }

  lemma AccountsInTaskStep(inputs: seq<Input>, t: nat)
    requires ValidInputs(inputs) && t < |inputs| && AccountsOfClosings(inputs, t)
    ensures AccountsOfClosings(inputs, t + 1)
  {
    AccountsStep(inputs, t);
    ClosingsAccounts(inputs, t);
  }

  lemma ClosingsAccounts(inputs: seq<Input>, t: nat)
    requires ValidInputs(inputs) && t < |inputs|
    ensures
      var before, now := Closings(inputs, t), Closings(inputs, t + 1);
      AccountsAfter(now, |now|) ==
        if inputs[t].index == ACCOUNTING_LINE then
          CloseRevolution(AccountsAfter(before, |before|), RunTask(inputs, t + 1).averages)
        else AccountsAfter(before, |before|)
  {
    ClosingsStep(inputs, t);
    AppendClosing(Closings(inputs, t), RunTask(inputs, t + 1).averages);
  }

  lemma ClosingsStep(inputs: seq<Input>, t: nat)
    requires ValidInputs(inputs) && t < |inputs|
    ensures Closings(inputs, t + 1) ==
      if inputs[t].index == ACCOUNTING_LINE then Closings(inputs, t) + [RunTask(inputs, t + 1).averages]
      else Closings(inputs, t)
  {
  }

  lemma AccountsStep(inputs: seq<Input>, t: nat)
    requires ValidInputs(inputs) && t < |inputs|
    ensures RunTask(inputs, t + 1).accounts ==
      if inputs[t].index == ACCOUNTING_LINE then
        CloseRevolution(RunTask(inputs, t).accounts, RunTask(inputs, t + 1).averages)
      else RunTask(inputs, t).accounts
  {
  }

  lemma AppendClosing(before: seq<seq<Word32>>, last: seq<Word32>)
    requires Revolutions(before) && |last| == LINES
    ensures Revolutions(before + [last])
    ensures AccountsAfter(before + [last], |before| + 1) == CloseRevolution(AccountsAfter(before, |before|), last)
  {
    AccountsOfPrefix(before, last, |before|);
  }

  lemma {:induction false} AccountsOfPrefix(averages: seq<seq<Word32>>, last: seq<Word32>, r: nat)
    requires Revolutions(averages) && |last| == LINES && r <= |averages|
    ensures Revolutions(averages + [last])
    ensures AccountsAfter(averages + [last], r) == AccountsAfter(averages, r)
  {
    if r > 0 {
      AccountsOfPrefix(averages, last, r - 1);
    }
  }

  // ----- Exactly when the accumulator is safe, and how tight the bound is

  /** The stored average of line `l` alone. */
  ghost function LineAverage(inputs: seq<Input>, t: nat, l: nat): Word32
    requires ValidInputs(inputs) && t <= |inputs|
  {
    if t == 0 then 0
    else if inputs[t - 1].index == l then
      StoredAverage(LineAverage(inputs, t - 1, l), inputs[t - 1].samples, inputs[t - 1].n)
    else LineAverage(inputs, t - 1, l)
  }

  lemma {:induction false} LineAverageInTask(inputs: seq<Input>, t: nat, l: nat)
    requires ValidInputs(inputs) && t <= |inputs| && l < LINES
    ensures RunTask(inputs, t).averages[l] == LineAverage(inputs, t, l)
  {
    if t > 0 {
      LineAverageInTask(inputs, t - 1, l);
    }
  }

  /** What visit `t` of the run adds up to, before the 32-bit store. */
  ghost function VisitSum(inputs: seq<Input>, t: nat): nat
    requires ValidInputs(inputs) && t < |inputs|
  {
    LineAverage(inputs, t, inputs[t].index) + ScanTotal(inputs[t].samples)
  }

  ghost predicate NeverWraps(inputs: seq<Input>)
    requires ValidInputs(inputs)
  {
    forall t :: 0 <= t < |inputs| ==> VisitSum(inputs, t) < TWO32
  }

  lemma VisitBound(inputs: seq<Input>, segments: nat, total: nat, t: nat)
    requires SumBound(segments, total) < TWO32 && segments <= 80
    requires AllFit(inputs, segments, total) && ValidInputs(inputs) && t < |inputs|
    ensures VisitSum(inputs, t) <= SumBound(segments, total)
  {
    NoAccumulatorWraps(inputs, segments, total, t);
    LineAverageInTask(inputs, t, inputs[t].index);
  }

  /** Frames of one segment with `n` samples each. */
  ghost predicate SingleSegments(inputs: seq<Input>, n: nat) {
    ValidInputs(inputs) && forall k :: 0 <= k < |inputs| ==> |inputs[k].samples| == inputs[k].n == n
  }

  /** The sum of the first samples of the first `t` frames. */
  ghost function SampleSum(inputs: seq<Input>, t: nat): nat
    requires t <= |inputs| && forall k :: 0 <= k < |inputs| ==> inputs[k].samples != []
  {
    if t == 0 then 0 else SampleSum(inputs, t - 1) + inputs[t - 1].samples[0]
  }

  /** With one sample for each frame nothing is averaged: the stored value is the sum of all samples, modulo 2^32. */
  lemma {:induction false} OneSampleSums(inputs: seq<Input>, l: nat, t: nat)
    requires SingleSegments(inputs, 1) && t <= |inputs|
    requires forall k :: 0 <= k < |inputs| ==> inputs[k].index == l
    ensures LineAverage(inputs, t, l) == SampleSum(inputs, t) % TWO32
  {
    if t > 0 {
      OneSampleSums(inputs, l, t - 1);
      OneSampleVisit(inputs, t - 1);
      WrapAdd(SampleSum(inputs, t - 1), inputs[t - 1].samples[0]);
    }
  }

  lemma {:induction false} EqualSampleSum(inputs: seq<Input>, v: Word, t: nat)
    requires t <= |inputs| && forall k :: 0 <= k < |inputs| ==> inputs[k].samples == [v]
    ensures SampleSum(inputs, t) == v * t
  {
    if t > 0 {
      EqualSampleSum(inputs, v, t - 1);
    }
  }

  lemma OneSampleVisit(inputs: seq<Input>, t: nat)
    requires SingleSegments(inputs, 1) && t < |inputs|
    ensures
      var l := inputs[t].index;
      LineAverage(inputs, t + 1, l) == (LineAverage(inputs, t, l) + inputs[t].samples[0]) % TWO32
  {
    assert ScanTotal(inputs[t].samples) == inputs[t].samples[0];
  }

  lemma WrapAdd(a: nat, b: nat)
    ensures (a % TWO32 + b) % TWO32 == (a + b) % TWO32
  {
  }

  /** Frames of up to `segments` segments that announce between `least` and `most` samples for each. */
  ghost predicate Shaped(inputs: seq<Input>, segments: nat, least: nat, most: nat) {
    ValidInputs(inputs)
    && forall k :: 0 <= k < |inputs| ==> least <= inputs[k].n <= most && |inputs[k].samples| <= inputs[k].n * segments
  }

  lemma ProductGrows(a: nat, b: nat, c: nat)
    requires a <= b
    ensures a * c <= b * c
  {
  }

  lemma ShapedFit(inputs: seq<Input>, segments: nat, least: nat, most: nat)
    requires Shaped(inputs, segments, least, most) && least >= 2
    ensures AllFit(inputs, segments, most * segments)
  {
    forall k | 0 <= k < |inputs| ensures Fits(inputs[k], segments, most * segments) {
      ProductGrows(inputs[k].n, most, segments);
    }
  }

  /** 65538 frames with one sample of 65535 each, on the same line, exceed 32 bits. */
  lemma OneSampleWraps() returns (inputs: seq<Input>)
    ensures SingleSegments(inputs, 1) && !NeverWraps(inputs)
  {
    inputs := seq(65538, _ => Input(0, 1, [65535]));
    OneSampleSums(inputs, 0, 65537);
    EqualSampleSum(inputs, 65535, 65537);
    assert ScanTotal([65535]) == 65535;
    assert VisitSum(inputs, 65537) >= TWO32;
  }

  /**
    For frames of a given shape whose largest sum fits 32 bits, the accumulator is safe in every run
    exactly when the frames announce at least two samples.
  */
  lemma AccumulatorSafeIff(segments: nat, least: nat, most: nat)
    requires 1 <= segments <= 80 && 1 <= least <= most && SumBound(segments, most * segments) < TWO32
    ensures (forall inputs: seq<Input> | Shaped(inputs, segments, least, most) :: NeverWraps(inputs)) <==> least >= 2
  {
    if least >= 2 {
      forall inputs: seq<Input> | Shaped(inputs, segments, least, most) ensures NeverWraps(inputs) {
        ShapedFit(inputs, segments, least, most);
        forall t | 0 <= t < |inputs| ensures VisitSum(inputs, t) < TWO32 {
          VisitBound(inputs, segments, most * segments, t);
        }
      }
    } else {
      var inputs := OneSampleWraps();
      assert Shaped(inputs, segments, least, most);
    }
  }

  /**
    The shapes of the firmware: any single segment, and the chains of the segment pool with up to 45
    segments of up to 813 samples.
  */
  lemma FirmwareShapesSafeIff(least: nat)
    ensures 1 <= least <= 65535 ==>
      ((forall inputs: seq<Input> | Shaped(inputs, 1, least, 65535) :: NeverWraps(inputs)) <==> least >= 2)
    ensures 1 <= least <= 813 ==>
      ((forall inputs: seq<Input> | Shaped(inputs, 45, least, 813) :: NeverWraps(inputs)) <==> least >= 2)
  {
    if 1 <= least <= 65535 { AccumulatorSafeIff(1, least, 65535); }
    if 1 <= least <= 813 { AccumulatorSafeIff(45, least, 813); }
  }

  /** A frame whose samples are as large as the scan allows: only the last one is saturated. */
  function Largest(n: nat): (i: Input)
    requires n > 0
  {
    Input(0, n, seq(n - 1, _ => SATURATION) + [65535])
  }

  lemma {:induction false} LargestTotal(n: nat)
    requires n > 0
    ensures ScanTotal(Largest(n).samples) == 60500 * (n - 1) + 65535
  {
    if n > 1 {
      LargestTotal(n - 1);
      assert Largest(n).samples[1..] == Largest(n - 1).samples;
    }
  }

  /** The bound of `NoAccumulatorWraps` is attained by frames of one segment: no smaller one holds. */
  lemma BoundAttained()
    ensures exists inputs: seq<Input>, t: nat ::
      && ValidInputs(inputs) && AllFit(inputs, 1, 65535) && t < |inputs|
      && LineAverage(inputs, t, inputs[t].index) == StoredBound(1)
      && VisitSum(inputs, t) == SumBound(1, 65535)
  {
    var inputs := ExtremeRun();
    var t := 17;
    assert ValidInputs(inputs) && AllFit(inputs, 1, 65535) && t < |inputs|
           && LineAverage(inputs, t, inputs[t].index) == StoredBound(1) && VisitSum(inputs, t) == SumBound(1, 65535);
  }

  lemma LargestFits(n: nat)
    requires 2 <= n <= 65535
    ensures Fits(Largest(n), 1, 65535)
  {
  }

  /** Seventeen two-sample frames drive the stored value to its bound; one frame of 65535 samples follows. */
  lemma ExtremeRun() returns (inputs: seq<Input>)
    ensures |inputs| == 18 && ValidInputs(inputs) && AllFit(inputs, 1, 65535)
    ensures LineAverage(inputs, 17, inputs[17].index) == StoredBound(1)
    ensures VisitSum(inputs, 17) == SumBound(1, 65535)
  {
    inputs := seq(17, _ => Largest(2)) + [Largest(65535)];
    LargestFits(2);
    LargestFits(65535);
    ExtremeVisit(inputs);
  }

  lemma ExtremeVisit(inputs: seq<Input>)
    requires |inputs| == 18 && ValidInputs(inputs) && inputs[17] == Largest(65535)
    requires forall k :: 0 <= k < 17 ==> inputs[k] == Largest(2)
    ensures LineAverage(inputs, 17, inputs[17].index) == StoredBound(1)
    ensures VisitSum(inputs, 17) == SumBound(1, 65535)
  {
    LargestTotal(65535);
    Climb(inputs, 17);
    ClimbedTop();
  }

  function Climbed(t: nat): nat { if t == 0 then 0 else (Climbed(t - 1) + 126035) / 2 }

  lemma ClimbedTop()
    ensures Climbed(17) == 126034
  {
    assert Climbed(4) == 118157;
    assert Climbed(8) == 125542;
    assert Climbed(12) == 126004;
    assert Climbed(16) == 126033;
  }

  lemma ClimbStep(inputs: seq<Input>, t: nat)
    requires ValidInputs(inputs) && t < |inputs| && inputs[t] == Largest(2)
    requires LineAverage(inputs, t, 0) <= 126034
    ensures LineAverage(inputs, t + 1, 0) == (LineAverage(inputs, t, 0) + 126035) / 2
  {
    LargestTotal(2);
  }

  lemma {:induction false} Climb(inputs: seq<Input>, t: nat)
    requires ValidInputs(inputs) && t <= |inputs|
    requires forall k :: 0 <= k < t ==> inputs[k] == Largest(2)
    ensures LineAverage(inputs, t, 0) == Climbed(t) <= 126034
  {
    if t > 0 {
      Climb(inputs, t - 1);
      ClimbStep(inputs, t - 1);
    }
  }

  // ----- When the stored values are the means they are named after

  /** How many samples the scan reads: up to and including the first saturated one. */
  function ScanLength(samples: seq<Word>): (n: nat)
    ensures n <= |samples|
  {
    if samples == [] then 0 else if samples[0] > SATURATION then 1 else 1 + ScanLength(samples[1..])
  }

  lemma {:induction false} SumConcat(a: seq<int>, b: seq<int>)
    ensures Sum(a + b) == Sum(a) + Sum(b)
  {
    if b == [] {
      assert a + b == a;
    } else {
      var last := |b| - 1;
      assert (a + b)[..|a + b| - 1] == a + b[..last];
      SumConcat(a, b[..last]);
    }
  }

  /** The scan ends at the first sample above 60500, or at the end. */
  lemma {:induction false} ScanLengthIs(samples: seq<Word>)
    ensures
      var m := ScanLength(samples);
      && (forall i :: 0 <= i < m - 1 ==> samples[i] <= 60500)
      && (m > 0 && samples[m - 1] <= 60500 ==> m == |samples|)
      && (m == 0 ==> samples == [])
  {
    if samples != [] && samples[0] <= SATURATION {
      ScanLengthIs(samples[1..]);
      assert forall i :: 0 < i < |samples| ==> samples[i] == samples[1..][i - 1];
    }
  }

  /** The samples that the scan does not reach. */
  function Unscanned(samples: seq<Word>): int { Sum(samples[ScanLength(samples)..]) }

  lemma ScanReads(samples: seq<Word>)
    ensures ScanTotal(samples) == Sum(samples[..ScanLength(samples)])
    ensures ScanTotal(samples) + Unscanned(samples) == Sum(samples)
  {
    var m := ScanLength(samples);
    ScanSum(samples);
    assert samples == samples[..m] + samples[m..];
    SumConcat(samples[..m], samples[m..]);
  }

  lemma {:induction false} ScanSum(samples: seq<Word>)
    ensures ScanTotal(samples) == Sum(samples[..ScanLength(samples)])
  {
    if samples != [] {
      var m, rest := ScanLength(samples), samples[1..];
      SumFirst(samples[..m]);
      assert samples[..m][1..] == rest[..m - 1];
      if samples[0] <= SATURATION { ScanSum(rest); }
    }
  }

  lemma SumFirst(values: seq<int>)
    requires values != []
    ensures Sum(values) == values[0] + Sum(values[1..])
  {
    assert values == [values[0]] + values[1..];
    assert Sum([values[0]]) == values[0];
    SumConcat([values[0]], values[1..]);
  }

  /** The old value and the samples up to the first one above 60500, added up in 32 bits and divided by `n`. */
  function StoredFrom(average: int, samples: seq<Word>, n: nat): int
    requires n > 0
  {
    (average + Sum(samples[..ScanLength(samples)])) % 0x1_0000_0000 / n
  }

  /** That is what the gain task stores for a frame, with the announced count; no other line changes. */
  lemma FrameStores(s: TaskState, frame: Frame)
    requires ValidState(s) && Processable(frame)
    ensures IndexInBytes(frame[0]) < 1200 && CountInBytes(frame[0]) > 0
    ensures TaskNext(s, InputOf(frame)).averages[IndexInBytes(frame[0])]
         == StoredFrom(s.averages[IndexInBytes(frame[0])], SamplesFrom(frame, CountInBytes(frame[0]), 0),
                       CountInBytes(frame[0]))
    ensures forall l :: 0 <= l < 1200 && l != IndexInBytes(frame[0]) ==>
      TaskNext(s, InputOf(frame)).averages[l] == s.averages[l]
  {
    HeaderInBytes(frame);
    StoredIs(s.averages[IndexInBytes(frame[0])], SamplesFrom(frame, CountInBytes(frame[0]), 0), CountInBytes(frame[0]));
  }

  lemma StoredIs(average: Word32, samples: seq<Word>, n: nat)
    requires n > 0
    ensures StoredAverage(average, samples, n) == StoredFrom(average, samples, n)
  {
    ScanReads(samples);
  }

  /** The mean of all samples of a frame, as the integer quotient. */
  function Mean(samples: seq<Word>): int
    requires samples != []
  {
    Sum(samples) / |samples|
  }

  /**
    For a frame of `k` full segments the stored value is the mean of its samples exactly when what it
    counts too much, `k` times the old value and `k - 1` times the scanned samples, is made up for, to
    within one quotient, by the samples that are not scanned and by what the division by `n` cuts off.
  */
  lemma MeanExactIff(average: Word32, samples: seq<Word>, n: nat, k: nat)
    requires n > 0 && k > 0 && |samples| == k * n && average + ScanTotal(samples) < TWO32
    ensures samples != []
    ensures
      var scanned: int := ScanTotal(samples);
      var surplus := k * average + (k - 1) * scanned;
      StoredAverage(average, samples, n) == Mean(samples)
      <==> surplus <= Unscanned(samples) + k * ((average + scanned) % n) < surplus + k * n
  {
    assert |samples| >= n by { AtLeastOneStep(k, n); }
    var scanned, unscanned := ScanTotal(samples), Unscanned(samples);
    assert Sum(samples) == scanned + unscanned by { ScanReads(samples); }
    StoredUnwrapped(average, samples, n);
    SurplusOfSize(average, scanned, unscanned, n, k, |samples|);
  }

  lemma StoredUnwrapped(average: Word32, samples: seq<Word>, n: nat)
    requires n > 0 && average + ScanTotal(samples) < TWO32
    ensures StoredAverage(average, samples, n) == (average + ScanTotal(samples)) / n
  {
  }

  lemma SurplusOfSize(average: int, scanned: int, unscanned: int, n: nat, k: nat, size: nat)
    requires n > 0 && size == k * n && size > 0
    ensures
      var surplus := k * average + (k - 1) * scanned;
      (average + scanned) / n == (scanned + unscanned) / size
      <==> surplus <= unscanned + k * ((average + scanned) % n) < surplus + k * n
  {
    MeanSurplus(average, scanned, unscanned, n, k);
  }

  lemma MeanSurplus(average: int, scanned: int, unscanned: int, n: nat, k: nat)
    requires n > 0 && k * n > 0
    ensures
      var surplus := k * average + (k - 1) * scanned;
      (average + scanned) / n == (scanned + unscanned) / (k * n)
      <==> surplus <= unscanned + k * ((average + scanned) % n) < surplus + k * n
  {
    var total := average + scanned;
    var q, r := total / n, total % n;
    QuotientIs(scanned + unscanned, k * n, q);
    assert q * (k * n) == k * (q * n) by { Regrouped(q, k, n); }
    assert k * (q * n) == k * (total - r);
    Spread(k, average, scanned, r);
  }

  lemma Regrouped(q: int, k: int, n: int)
    ensures q * (k * n) == k * (q * n)
  {
  }

  lemma Spread(k: int, average: int, scanned: int, r: int)
    ensures k * (average + scanned - r) == k * average + (k - 1) * scanned + scanned - k * r
  {
  }

  /**
    For one segment: exactly when the old value and the remainder of the sum make up for the samples
    behind the first saturated one, to within the division.
  */
  lemma MeanExactOneSegmentIff(average: Word32, samples: seq<Word>, n: nat)
    requires n > 0 && |samples| == n && average + ScanTotal(samples) < TWO32
    ensures samples != []
    ensures StoredAverage(average, samples, n) == Mean(samples)
      <==> Unscanned(samples) <= average + Sum(samples) % n < Unscanned(samples) + n
  {
    var scanned, unscanned, sum := ScanTotal(samples), Unscanned(samples), Sum(samples);
    ScanReads(samples);
    OneInterval(average, scanned, unscanned, sum, n);
    assert StoredAverage(average, samples, n) == (average + scanned) / n by { StoredUnwrapped(average, samples, n); }
    assert Mean(samples) == sum / n;
  }

  lemma OneInterval(average: int, scanned: int, unscanned: int, sum: int, n: nat)
    requires n > 0 && sum == scanned + unscanned
    ensures (average + scanned) / n == sum / n <==> unscanned <= average + sum % n < unscanned + n
  {
    QuotientIs(average + scanned, n, sum / n);
  }

  lemma MeanInterval(average: int, scanned: int, sum: int, n: nat, k: nat)
    requires n > 0 && k * n > 0
    ensures
      var mean, unscanned := sum / (k * n), sum - scanned;
      (average + scanned) / n == mean
      <==> unscanned <= average + (k - 1) * n * mean + sum % (k * n) < unscanned + n
  {
    var size := k * n;
    var mean := sum / size;
    QuotientIs(average + scanned, n, mean);
    Shares(mean, n, k);
    assert sum == mean * size + sum % size;
  }

  lemma Shares(mean: int, n: int, k: int)
    ensures mean * (k * n) == (k - 1) * n * mean + mean * n
  {
  }

  /** A quotient is given by the interval its dividend lies in. */
  lemma QuotientIs(x: int, n: nat, q: int)
    requires n > 0
    ensures x / n == q <==> q * n <= x < q * n + n
  {
    Distribute(x / n, q, n);
    AtLeastOneStep(x / n - q, n);
  }

  /** For a frame that is scanned to its end: one segment, or several. */
  lemma MeanExactUnsaturatedIff(average: Word32, samples: seq<Word>, n: nat, k: nat)
    requires n > 0 && k > 0 && |samples| == k * n && average + ScanTotal(samples) < TWO32
    requires !Saturated(samples)
    ensures samples != []
    ensures StoredAverage(average, samples, n) == Mean(samples)
      <==> if k == 1 then average + Sum(samples) % n < n else average + Sum(samples) < n
  {
    assert |samples| >= n by { AtLeastOneStep(k, n); }
    assert Sum(samples) == ScanTotal(samples) by {
      ScanReads(samples);
      UnsaturatedScan(samples);
    }
    NonNegativeSum(samples);
    StoredUnwrapped(average, samples, n);
    UnsaturatedMean(average, Sum(samples), |samples|, n, k);
  }

  lemma UnsaturatedMean(average: nat, sum: nat, size: nat, n: nat, k: nat)
    requires n > 0 && k > 0 && size == k * n && size > 0
    ensures (average + sum) / n == sum / size
      <==> if k == 1 then average + sum % n < n else average + sum < n
  {
    MeanInterval(average, sum, sum, n, k);
    UnsaturatedArithmetic(average, sum, size, n, k);
  }

  lemma UnsaturatedArithmetic(average: nat, sum: nat, size: nat, n: nat, k: nat)
    requires n > 0 && k > 0 && size == k * n && size > 0
    ensures
      var slack := average + (k - 1) * n * (sum / size) + sum % size;
      && slack >= 0
      && (slack < n <==> if k == 1 then average + sum % n < n else average + sum < n)
  {
    if k == 1 {
      OneSegment(average, sum, n, sum / size);
    } else {
      Product(k - 1, n, sum / size);
      SeveralSegments(average, sum, size, n, k);
    }
  }

  lemma Product(a: nat, b: nat, c: nat)
    ensures a * b * c >= 0
  {
  }

  lemma OneSegment(average: nat, sum: nat, n: nat, mean: nat)
    requires n > 0
    ensures average + (1 - 1) * n * mean + sum % n == average + sum % n
  {
  }

  lemma SeveralSegments(average: nat, sum: nat, size: nat, n: nat, k: nat)
    requires n > 0 && k > 1 && size == k * n
    ensures average + (k - 1) * n * (sum / size) + sum % size < n <==> average + sum < n
  {
    var mean := sum / size;
    assert size > 0;
    assert size >= n by { AtLeastOneStep(k, n); }
    if mean == 0 {
      assert (k - 1) * n * mean == 0;
      assert sum % size == sum;
    } else {
      AtLeastOneStep(k - 1, n);
      AtLeastOneStep(mean, (k - 1) * n);
      assert sum >= size;
    }
  }

  lemma {:induction false} UnsaturatedScan(samples: seq<Word>)
    requires !Saturated(samples)
    ensures ScanLength(samples) == |samples| && Unscanned(samples) == 0
  {
    if samples != [] {
      UnsaturatedScan(samples[1..]);
    }
  }

  lemma NonNegativeSum(samples: seq<Word>)
    ensures Sum(samples) >= 0
  {
    SumBounds(samples, 65535);
  }

  /** Two segments of 100s store 200; one segment whose first sample is saturated stores half of it. */
  lemma MeanFails()
    ensures StoredAverage(0, [100, 100, 100, 100], 2) == 200 && Mean([100, 100, 100, 100]) == 100
    ensures StoredAverage(0, [60501, 60501], 2) == 30250 && Mean([60501, 60501]) == 60501
  {
    var a, b: seq<Word> := [100, 100, 100, 100], [60501, 60501];
    assert !Saturated(a);
    ScanReads(a);
    UnsaturatedScan(a);
    SumConcat([100, 100], [100, 100]);
    assert a == [100, 100] + [100, 100] && a[..4] == a;
    assert Sum([100, 100]) == 200 by { SumConcat([100], [100]); assert [100] + [100] == [100, 100]; }
    assert Sum(b) == 121002 by { SumConcat([60501], [60501]); assert [60501] + [60501] == b; }
  }

  /** The sum of the line averages that revolution `r` adds up. */
  ghost function RevolutionSum(averages: seq<seq<Word32>>, r: nat): (sum: nat)
    requires Revolutions(averages) && r < |averages|
  {
    SumBounds(averages[r][..99], TWO32);
    Sum(averages[r][..99])
  }

  /**
    A revolution closes with the quotient of its own line averages exactly when it is one of the first
    three, or the value carried along fits into what the division by 98 cuts off.
  */
  lemma OwnRevolutionIff(averages: seq<seq<Word32>>, r: nat)
    requires Revolutions(averages) && r < |averages|
    requires RevolutionSum(averages, r) + (if r < 3 then 0 else ClosingValue(averages, r - 1)) < TWO32
    ensures ClosingValue(averages, r) == RevolutionSum(averages, r) / 98
      <==> r < 3 || ClosingValue(averages, r - 1) + RevolutionSum(averages, r) % 98 < 98
  {
    var carried: int := if r < 3 then 0 else ClosingValue(averages, r - 1);
    assert ClosingValue(averages, r) == (carried + RevolutionSum(averages, r)) / 98;
    CarriedAway(RevolutionSum(averages, r), carried);
  }

  lemma CarriedAway(sum: nat, carried: nat)
    ensures (carried + sum) / 98 == sum / 98 <==> carried + sum % 98 < 98
  {
  }

  lemma {:induction false} ConstantSum(n: nat, v: int)
    ensures Sum(seq(n, _ => v)) == n * v
  {
    if n > 0 {
      assert seq(n, _ => v)[..n - 1] == seq(n - 1, _ => v);
      ConstantSum(n - 1, v);
    }
  }

  /** A revolution that adds up to 9702 closes with 99, or with 100 when 99 is carried along. */
  lemma ClosingOf(averages: seq<seq<Word32>>, r: nat)
    requires Revolutions(averages) && r < |averages| && RevolutionSum(averages, r) == 9702
    ensures r < 3 ==> ClosingValue(averages, r) == 99
    ensures r >= 3 && ClosingValue(averages, r - 1) == 99 ==> ClosingValue(averages, r) == 100
  {
    assert 9702 % TWO32 / 98 == 99 && (99 + 9702) % TWO32 / 98 == 100;
  }

  lemma EqualLines(averages: seq<Word32>)
    requires |averages| == LINES && forall l :: 0 <= l < LINES ==> averages[l] == 98
    ensures Sum(averages[..ACCOUNTING_LINE + 1]) == 9702
  {
    ConstantSum(99, 98);
    assert averages[..ACCOUNTING_LINE + 1] == seq(99, _ => 98);
  }

  /** Four equal revolutions in which every line stores 98: the first three close with 99, the fourth with 100. */
  lemma FourthRevolutionCarries(averages: seq<seq<Word32>>)
    requires Revolutions(averages) && |averages| == 4
    requires forall r, l :: 0 <= r < 4 && 0 <= l < LINES ==> averages[r][l] == 98
    ensures ClosingValue(averages, 2) == RevolutionSum(averages, 2) / 98 == 99
    ensures RevolutionSum(averages, 3) / 98 == 99 && ClosingValue(averages, 3) == 100
  {
    forall r | 0 <= r < 4 ensures RevolutionSum(averages, r) == 9702 {
      EqualLines(averages[r]);
    }
    ClosingOf(averages, 2);
    ClosingOf(averages, 3);
  }
}
