/**
 * Funding timestamps against nominal venue slots.  Times are integer nanoseconds since the
 * epoch, intervals and tolerances integer nanoseconds.
 */
module FundingSlots {
  import opened Prelude
  import opened Rounding

  datatype SlotError = NonPositiveInterval | JitterExceeded | Duplicate | OutOfOrder
                     | TooShort | SlotDuplicate | SlotGap

  datatype Anomaly = EventJitter(at: int) | PairJitter(left: int, right: int)
  datatype Gap = Gap(left: int, right: int, missing: nat)
  datatype GapReport = GapReport(gaps: seq<Gap>, anomalies: seq<Anomaly>, missing: nat)

  // ---- one timestamp ----

  function SlotIndex(at: int, interval: int): int
    requires interval > 0
  {
    RoundDiv(at, interval)
  }

  function Jitter(at: int, interval: int): nat
    requires interval > 0
  {
    Abs(at - SlotIndex(at, interval) * interval)
  }

  function FundingSlot(at: int, interval: int, tolerance: int): Result<int, SlotError> {
    if interval <= 0 then Failure(NonPositiveInterval)
    else if Jitter(at, interval) > tolerance then Failure(JitterExceeded)
    else Success(SlotIndex(at, interval) * interval)
  }

  // A slot is returned exactly when some multiple of the interval lies within the tolerance,
  // and then it is such a multiple, as close as any.
  lemma {:induction false} FundingSlotIsNearest(at: int, interval: int, tolerance: int)
    requires interval > 0
    ensures FundingSlot(at, interval, tolerance).Success? <==>
            exists k {:trigger k * interval} :: Abs(at - k * interval) <= tolerance
    ensures FundingSlot(at, interval, tolerance).Success? ==>
              var slot := FundingSlot(at, interval, tolerance).value;
              && slot % interval == 0
              && forall k {:trigger k * interval} :: Abs(at - slot) <= Abs(at - k * interval)
  {
    NearestSlotIsNearest(at, interval);
    MultipleIsAligned(SlotIndex(at, interval), interval);
    assert Abs(at - SlotIndex(at, interval) * interval) == Jitter(at, interval);
  }

  lemma MultipleIsAligned(k: int, interval: int)
    requires interval > 0
    ensures (k * interval) % interval == 0
  {
    ExactMultiple(k, interval);
  }

  lemma NearestSlotIsNearest(at: int, interval: int)
    requires interval > 0
    ensures forall k {:trigger k * interval} :: Abs(at - k * interval) >= Jitter(at, interval)
  {
    var q := SlotIndex(at, interval);
    forall k {:trigger k * interval}
      ensures Abs(at - k * interval) >= Jitter(at, interval)
    {
      assert (k - q) * interval == k * interval - q * interval;
      if k - q >= 1 {
        MulLeft(1, k - q, interval);
      } else if k - q <= -1 {
        MulLeft(k - q, -1, interval);
      }
    }
  }

  // ---- a series: the gap inventory ----

  function PairSlots(left: int, right: int, interval: int): int
    requires interval > 0
  {
    MaxInt(1, RoundDiv(right - left, interval))
  }

  function PairJitterOf(left: int, right: int, interval: int): nat
    requires interval > 0
  {
    Abs(right - left - PairSlots(left, right, interval) * interval)
  }

  function PairMissing(left: int, right: int, interval: int, tolerance: int): nat
    requires interval > 0
  {
    if PairSlots(left, right, interval) > 1 && right - left > interval + tolerance
    then PairSlots(left, right, interval) - 1
    else 0
  }

  // Missing events between the first n timestamps.
  function Missing(ts: seq<int>, interval: int, tolerance: int, n: nat): nat
    requires interval > 0 && n <= |ts|
  {
    if n < 2 then 0
    else Missing(ts, interval, tolerance, n - 1) + PairMissing(ts[n - 2], ts[n - 1], interval, tolerance)
  }

  ghost predicate CadenceClean(ts: seq<int>, interval: int, tolerance: int)
    requires interval > 0
  {
    && (forall i | 0 <= i < |ts| :: Jitter(ts[i], interval) <= tolerance)
    && (forall i | 0 < i < |ts| :: PairJitterOf(ts[i - 1], ts[i], interval) <= tolerance)
  }

  function TotalMissing(gaps: seq<Gap>): nat {
    if gaps == [] then 0 else TotalMissing(gaps[..|gaps| - 1]) + gaps[|gaps| - 1].missing
  }

  // What the two loops list for the first n timestamps.
  function EventsOff(ts: seq<int>, interval: int, tolerance: int, n: nat): seq<Anomaly>
    requires interval > 0 && n <= |ts|
  {
    if n == 0 then []
    else EventsOff(ts, interval, tolerance, n - 1)
         + if Jitter(ts[n - 1], interval) > tolerance then [EventJitter(ts[n - 1])] else []
  }

  function PairsOff(ts: seq<int>, interval: int, tolerance: int, n: nat): seq<Anomaly>
    requires interval > 0 && n <= |ts|
  {
    if n < 2 then []
    else PairsOff(ts, interval, tolerance, n - 1)
         + if PairJitterOf(ts[n - 2], ts[n - 1], interval) > tolerance then [PairJitter(ts[n - 2], ts[n - 1])] else []
  }

  function GapsOf(ts: seq<int>, interval: int, tolerance: int, n: nat): seq<Gap>
    requires interval > 0 && n <= |ts|
  {
    if n < 2 then []
    else
      var left, right := ts[n - 2], ts[n - 1];
      var missing := PairMissing(left, right, interval, tolerance);
      GapsOf(ts, interval, tolerance, n - 1) + if missing > 0 then [Gap(left, right, missing)] else []
  }

  // An event is listed exactly when it is off its slot.
  lemma {:induction false} EventsListed(ts: seq<int>, interval: int, tolerance: int, n: nat, x: Anomaly)
    requires interval > 0 && n <= |ts|
    ensures x in EventsOff(ts, interval, tolerance, n)
       <==> exists i :: 0 <= i < n && Jitter(ts[i], interval) > tolerance && x == EventJitter(ts[i])
  {
    hide Jitter;
    if n > 0 {
      EventsListed(ts, interval, tolerance, n - 1, x);
    }
  }

  // A pair of neighbours is listed exactly when its spacing is off a whole number of intervals.
  lemma {:induction false} PairsListed(ts: seq<int>, interval: int, tolerance: int, n: nat, x: Anomaly)
    requires interval > 0 && n <= |ts|
    ensures x in PairsOff(ts, interval, tolerance, n)
       <==> exists i :: 0 < i < n && PairJitterOf(ts[i - 1], ts[i], interval) > tolerance
                        && x == PairJitter(ts[i - 1], ts[i])
  {
    hide PairJitterOf;
    if n > 1 {
      PairsListed(ts, interval, tolerance, n - 1, x);
    }
  }

  predicate GapBefore(ts: seq<int>, interval: int, tolerance: int, i: nat, x: Gap)
    requires interval > 0 && 0 < i < |ts|
  {
    var missing := PairMissing(ts[i - 1], ts[i], interval, tolerance);
    missing > 0 && x == Gap(ts[i - 1], ts[i], missing)
  }

  // A gap is listed exactly when events are missing between two neighbours.
  lemma {:induction false} GapsListed(ts: seq<int>, interval: int, tolerance: int, n: nat, x: Gap)
    requires interval > 0 && n <= |ts|
    ensures x in GapsOf(ts, interval, tolerance, n)
       <==> exists i :: 0 < i < n && GapBefore(ts, interval, tolerance, i, x)
  {
    if n > 1 {
      GapsListed(ts, interval, tolerance, n - 1, x);
      var shorter := GapsOf(ts, interval, tolerance, n - 1);
      assert x in GapsOf(ts, interval, tolerance, n) <==> x in shorter || GapBefore(ts, interval, tolerance, n - 1, x);
    }
  }

  lemma {:induction false} GapsTotal(ts: seq<int>, interval: int, tolerance: int, n: nat)
    requires interval > 0 && n <= |ts|
    ensures TotalMissing(GapsOf(ts, interval, tolerance, n)) == Missing(ts, interval, tolerance, n)
  {
    if n > 1 {
      GapsTotal(ts, interval, tolerance, n - 1);
      var gaps := GapsOf(ts, interval, tolerance, n - 1);
      var pair := Gap(ts[n - 2], ts[n - 1], PairMissing(ts[n - 2], ts[n - 1], interval, tolerance));
      assert (gaps + [pair])[..|gaps|] == gaps && gaps + [] == gaps;
    }
  }

  lemma {:induction false} EventsCleanUpTo(ts: seq<int>, interval: int, tolerance: int, n: nat)
    requires interval > 0 && n <= |ts|
    ensures EventsOff(ts, interval, tolerance, n) == []
       <==> forall i | 0 <= i < n :: Jitter(ts[i], interval) <= tolerance
  {
    if n > 0 {
      EventsCleanUpTo(ts, interval, tolerance, n - 1);
    }
  }

  lemma {:induction false} PairsCleanUpTo(ts: seq<int>, interval: int, tolerance: int, n: nat)
    requires interval > 0 && n <= |ts|
    ensures PairsOff(ts, interval, tolerance, n) == []
       <==> forall i | 0 < i < n :: PairJitterOf(ts[i - 1], ts[i], interval) <= tolerance
  {
    if n > 1 {
      PairsCleanUpTo(ts, interval, tolerance, n - 1);
    }
  }

  lemma CleanExactly(ts: seq<int>, interval: int, tolerance: int)
    requires interval > 0
    ensures EventsOff(ts, interval, tolerance, |ts|) + PairsOff(ts, interval, tolerance, |ts|) == []
       <==> CadenceClean(ts, interval, tolerance)
  {
    EventsCleanUpTo(ts, interval, tolerance, |ts|);
    PairsCleanUpTo(ts, interval, tolerance, |ts|);
  }

  // Both loops of the inventory.  Errors: an unordered or duplicated index, a useless interval.
  method FundingEventGaps(ts: seq<int>, interval: int, tolerance: int) returns (r: Result<GapReport, SlotError>)
    ensures r.Success? <==> StrictlyIncreasing(ts) && interval > 0
    ensures r.Success? ==>
              && r.value.gaps == GapsOf(ts, interval, tolerance, |ts|)
              && r.value.anomalies == EventsOff(ts, interval, tolerance, |ts|) + PairsOff(ts, interval, tolerance, |ts|)
              && (r.value.anomalies == [] <==> CadenceClean(ts, interval, tolerance))
              && r.value.missing == Missing(ts, interval, tolerance, |ts|)
  {
    var ordered := CheckOrdered(ts);
    if ordered.Failure? {
      return Failure(ordered.error);
    }
    if interval <= 0 {
      return Failure(NonPositiveInterval);
    }
    var anomalies := EventAnomalies(ts, interval, tolerance);
    var pairAnomalies, gaps := PairFindings(ts, interval, tolerance);
    CleanExactly(ts, interval, tolerance);
    GapsTotal(ts, interval, tolerance, |ts|);
    r := Success(GapReport(gaps, anomalies + pairAnomalies, TotalMissing(gaps)));
  }

  method EventAnomalies(ts: seq<int>, interval: int, tolerance: int) returns (anomalies: seq<Anomaly>)
    requires interval > 0
    ensures anomalies == EventsOff(ts, interval, tolerance, |ts|)
  {
    anomalies := [];
    for i := 0 to |ts|
      invariant anomalies == EventsOff(ts, interval, tolerance, i)
    {
      if Jitter(ts[i], interval) > tolerance {
        anomalies := anomalies + [EventJitter(ts[i])];
      }
    }
  }

  method PairFindings(ts: seq<int>, interval: int, tolerance: int) returns (anomalies: seq<Anomaly>, gaps: seq<Gap>)
    requires interval > 0
    ensures anomalies == PairsOff(ts, interval, tolerance, |ts|) && gaps == GapsOf(ts, interval, tolerance, |ts|)
  {
    anomalies, gaps := [], [];
    for i := 1 to MaxInt(1, |ts|)
      invariant i <= |ts| ==>
                anomalies == PairsOff(ts, interval, tolerance, i) && gaps == GapsOf(ts, interval, tolerance, i)
      invariant |ts| == 0 ==> anomalies == [] && gaps == []
    {
      var slots := PairSlots(ts[i - 1], ts[i], interval);
      if PairJitterOf(ts[i - 1], ts[i], interval) > tolerance {
        anomalies := anomalies + [PairJitter(ts[i - 1], ts[i])];
      }
      if slots > 1 && ts[i] - ts[i - 1] > interval + tolerance {
        gaps := gaps + [Gap(ts[i - 1], ts[i], slots - 1)];
      }
    }
  }

  // has_duplicates is reported before is_monotonic_increasing.
  method CheckOrdered(ts: seq<int>) returns (r: Result<(), SlotError>)
    ensures r.Success? <==> StrictlyIncreasing(ts)
    ensures r == Failure(Duplicate) <==> exists i, j :: 0 <= i < j < |ts| && ts[i] == ts[j]
  {
    if exists i, j :: 0 <= i < j < |ts| && ts[i] == ts[j] {
      return Failure(Duplicate);
    }
    var i := 1;
    while i < |ts|
      invariant 1 <= i
      invariant forall a, b | 0 <= a < b < |ts| && b < i :: ts[a] < ts[b]
    {
      if ts[i - 1] > ts[i] {
        return Failure(OutOfOrder);
      }
      i := i + 1;
    }
    r := Success(());
  }

  // ---- conservation: observed + missing = slots spanned ----

  ghost predicate Conserved(ts: seq<int>, interval: int, tolerance: int)
    requires interval > 0 && |ts| > 0
  {
    |ts| + Missing(ts, interval, tolerance, |ts|)
    == SlotIndex(ts[|ts| - 1], interval) - SlotIndex(ts[0], interval) + 1
  }

  lemma {:induction false} PairSpansItsSlots(left: int, right: int, interval: int, tolerance: int)
    requires interval > 3 * tolerance && tolerance >= 0 && left < right
    requires Jitter(left, interval) <= tolerance && Jitter(right, interval) <= tolerance
    requires PairJitterOf(left, right, interval) <= tolerance
    ensures SlotIndex(right, interval) - SlotIndex(left, interval) == 1 + PairMissing(left, right, interval, tolerance)
  {
    SameSpan(left, right, SlotIndex(left, interval), SlotIndex(right, interval),
             PairSlots(left, right, interval), interval, tolerance);
  }

  lemma SameSpan(left: int, right: int, a: int, b: int, n: int, interval: int, tolerance: int)
    requires interval > 3 * tolerance && tolerance >= 0 && n >= 1
    requires Abs(left - a * interval) <= tolerance && Abs(right - b * interval) <= tolerance
    requires Abs(right - left - n * interval) <= tolerance
    ensures b - a == n
    ensures n >= 2 ==> right - left > interval + tolerance
  {
    assert (b - a) * interval == b * interval - a * interval;
    CloseMultiples(b - a, n, interval, 6 * tolerance);
    if n >= 2 {
      MulLeft(2, n, interval);
    }
  }

  lemma {:induction false} ConservedUpTo(ts: seq<int>, interval: int, tolerance: int, n: nat)
    requires interval > 3 * tolerance && tolerance >= 0
    requires StrictlyIncreasing(ts) && CadenceClean(ts, interval, tolerance)
    requires 0 < n <= |ts|
    ensures n + Missing(ts, interval, tolerance, n) == SlotIndex(ts[n - 1], interval) - SlotIndex(ts[0], interval) + 1
  {
    if n > 1 {
      ConservedUpTo(ts, interval, tolerance, n - 1);
      PairSpansItsSlots(ts[n - 2], ts[n - 1], interval, tolerance);
    }
  }

  ghost predicate AlwaysConserves(interval: int, tolerance: int)
    requires interval > 0
  {
    forall ts: seq<int> | |ts| > 0 && StrictlyIncreasing(ts) && CadenceClean(ts, interval, tolerance) ::
      Conserved(ts, interval, tolerance)
  }

  // The inventory accounts for every slot of every clean series exactly when the interval
  // exceeds three tolerances.
  lemma {:induction false} ConservationThreshold(interval: int, tolerance: int)
    requires interval > 0 && tolerance >= 0
    ensures AlwaysConserves(interval, tolerance) <==> interval > 3 * tolerance
  {
    if interval > 3 * tolerance {
      forall ts: seq<int> | |ts| > 0 && StrictlyIncreasing(ts) && CadenceClean(ts, interval, tolerance)
        ensures Conserved(ts, interval, tolerance)
      {
        ConservedUpTo(ts, interval, tolerance, |ts|);
      }
    } else {
      var ts := LostSlot(interval, tolerance);
      assert !Conserved(ts, interval, tolerance);
    }
  }

  // Two events two slots apart, each pulled towards the other: the pair reads as adjacent.
  lemma {:induction false} LostSlot(interval: int, tolerance: int) returns (ts: seq<int>)
    requires interval > 0 && 0 <= tolerance && interval <= 3 * tolerance
    ensures |ts| == 2 && StrictlyIncreasing(ts) && CadenceClean(ts, interval, tolerance)
    ensures !Conserved(ts, interval, tolerance)
  {
    var pull := if tolerance < interval / 2 then tolerance else interval / 2;
    ts := [pull, 2 * interval - pull];
    PulledSlots(interval, pull);
    PulledPair(interval, tolerance, pull);
    hide SlotIndex, PairJitterOf, PairMissing;
    assert Missing(ts, interval, tolerance, 2) == Missing(ts, interval, tolerance, 1) == 0;
  }

  lemma PulledSlots(interval: int, pull: int)
    requires 0 <= 2 * pull <= interval && interval > 0
    ensures SlotIndex(pull, interval) == 0 && SlotIndex(2 * interval - pull, interval) == 2
  {
    RoundDivIsUnique(pull, interval, 0);
    RoundDivIsUnique(2 * interval - pull, interval, 2);
  }

  lemma PulledPair(interval: int, tolerance: int, pull: int)
    requires interval > 0 && tolerance > 0 && interval <= 3 * tolerance
    requires pull == if tolerance < interval / 2 then tolerance else interval / 2
    ensures PairJitterOf(pull, 2 * interval - pull, interval) <= tolerance
    ensures PairMissing(pull, 2 * interval - pull, interval, tolerance) == 0
  {
    RoundDivIsUnique(2 * interval - 2 * pull, interval, if interval == 1 then 2 else 1);
  }

  // ---- the Binance USD-M validator ----

  const HOUR_NS: int := 3_600_000_000_000
  const BINANCE_INTERVAL: int := 8 * HOUR_NS
  const BINANCE_JITTER: int := 1_000_000_000

  // Nearest slot by adding half an interval and flooring: a tie goes up, unlike rint.
  function BinanceSlot(at: int): int {
    ((at + BINANCE_INTERVAL / 2) / BINANCE_INTERVAL) * BINANCE_INTERVAL
  }

  method ValidateBinanceUsdmFunding(ts: seq<int>) returns (r: Result<(), SlotError>)
    ensures r.Success? <==> OnConsecutiveSlots(ts)
  {
    ChecksMeanConsecutiveSlots(ts);
    var ordered := CheckOrdered(ts);
    if ordered.Failure? {
      return Failure(ordered.error);
    }
    if |ts| < 2 {
      return Failure(TooShort);
    }
    for i := 0 to |ts|
      invariant forall j | 0 <= j < i :: NearItsSlot(ts[j])
    {
      if Abs(ts[i] - BinanceSlot(ts[i])) > BINANCE_JITTER {
        assert !NearItsSlot(ts[i]);
        return Failure(JitterExceeded);
      }
    }
    for i := 1 to |ts| {
      if BinanceSlot(ts[i]) == BinanceSlot(ts[i - 1]) {
        assert !Adjacent(ts[i - 1], ts[i]);
        return Failure(SlotDuplicate);
      }
    }
    for i := 1 to |ts|
      invariant forall j | 0 < j < i :: Adjacent(ts[j - 1], ts[j])
    {
      if BinanceSlot(ts[i]) - BinanceSlot(ts[i - 1]) != BINANCE_INTERVAL {
        assert !Adjacent(ts[i - 1], ts[i]);
        return Failure(SlotGap);
      }
    }
    r := Success(());
  }

  predicate NearItsSlot(at: int) {
    Abs(at - BinanceSlot(at)) <= BINANCE_JITTER
  }

  predicate Adjacent(left: int, right: int) {
    BinanceSlot(right) - BinanceSlot(left) == BINANCE_INTERVAL
  }

  ghost predicate BinanceChecks(ts: seq<int>) {
    && |ts| >= 2
    && StrictlyIncreasing(ts)
    && (forall i | 0 <= i < |ts| :: NearItsSlot(ts[i]))
    && (forall i | 0 < i < |ts| :: Adjacent(ts[i - 1], ts[i]))
  }

  // Event i lies within one second of slot base + i.
  ghost predicate Follows(ts: seq<int>, base: int) {
    forall i | 0 <= i < |ts| :: Abs(ts[i] - (base + i) * BINANCE_INTERVAL) <= BINANCE_JITTER
  }

  // At least two events, on consecutive eight-hour slots.
  ghost predicate OnConsecutiveSlots(ts: seq<int>) {
    |ts| >= 2 && exists base :: Follows(ts, base)
  }

  lemma ChecksMeanConsecutiveSlots(ts: seq<int>)
    ensures BinanceChecks(ts) <==> OnConsecutiveSlots(ts)
  {
    if BinanceChecks(ts) {
      ChecksGiveBase(ts);
    }
    if OnConsecutiveSlots(ts) {
      var base :| Follows(ts, base);
      BasePassesChecks(ts, base);
    }
  }

  lemma ChecksGiveBase(ts: seq<int>)
    requires BinanceChecks(ts)
    ensures Follows(ts, BinanceSlot(ts[0]) / BINANCE_INTERVAL)
  {
    var base := BinanceSlot(ts[0]) / BINANCE_INTERVAL;
    assert BinanceSlot(ts[0]) == base * BINANCE_INTERVAL;
    hide BinanceSlot;
    forall i | 0 <= i < |ts|
      ensures Abs(ts[i] - (base + i) * BINANCE_INTERVAL) <= BINANCE_JITTER
    {
      SlotsAdvance(ts, i);
      assert NearItsSlot(ts[i]);
    }
  }

  lemma BasePassesChecks(ts: seq<int>, base: int)
    requires |ts| >= 2 && Follows(ts, base)
    ensures BinanceChecks(ts)
  {
    forall i | 0 <= i < |ts|
      ensures BinanceSlot(ts[i]) == (base + i) * BINANCE_INTERVAL
    {
      NearSlotIsTheSlot(ts[i], base + i);
    }
    hide BinanceSlot;
    forall i | 0 < i < |ts|
      ensures Adjacent(ts[i - 1], ts[i])
    {
      assert BinanceSlot(ts[i - 1]) == (base + (i - 1)) * BINANCE_INTERVAL;
    }
  }

  lemma NearSlotIsTheSlot(at: int, k: int)
    requires Abs(at - k * BINANCE_INTERVAL) <= BINANCE_JITTER
    ensures BinanceSlot(at) == k * BINANCE_INTERVAL
  {
  }

  lemma {:induction false} SlotsAdvance(ts: seq<int>, n: nat)
    requires n < |ts| && forall i | 0 < i < |ts| :: Adjacent(ts[i - 1], ts[i])
    ensures BinanceSlot(ts[n]) == BinanceSlot(ts[0]) + n * BINANCE_INTERVAL
  {
    if n > 0 {
      SlotsAdvance(ts, n - 1);
      assert Adjacent(ts[n - 1], ts[n]);
    }
  }

  // A validated series misses nothing, even though two neighbours may be up to two seconds off.
  lemma ValidatedMissesNothing(ts: seq<int>)
    requires OnConsecutiveSlots(ts)
    ensures Missing(ts, BINANCE_INTERVAL, BINANCE_JITTER, |ts|) == 0
  {
    ValidatedMissesNothingUpTo(ts, |ts|);
  }

  lemma {:induction false} ValidatedMissesNothingUpTo(ts: seq<int>, n: nat)
    requires OnConsecutiveSlots(ts) && n <= |ts|
    ensures Missing(ts, BINANCE_INTERVAL, BINANCE_JITTER, n) == 0
  {
    if n >= 2 {
      ValidatedMissesNothingUpTo(ts, n - 1);
      ChecksMeanConsecutiveSlots(ts);
      assert NearItsSlot(ts[n - 2]) && NearItsSlot(ts[n - 1]) && Adjacent(ts[n - 2], ts[n - 1]);
      RoundDivIsUnique(ts[n - 1] - ts[n - 2], BINANCE_INTERVAL, 1);
    }
  }
}
