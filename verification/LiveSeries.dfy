/** The samples of a live run: attached in the middle, detached at both ends
    (qa/live_behavior_check.py). */
module LiveSeries {
  import opened Wrappers
  import opened Chars
  import opened JsonValue
  import Decimals
  import opened Digests
  import opened EventCounters

  /** `sample_ops` and `sample_state`. */
  function FactText(row: Row, field: string): string {
    match Get(row, field)
    case Some(JObject(fact)) => (match Get(fact, "value") case Some(JStr(s)) => s case _ => "")
    case _ => ""
  }

  predicate IsAttached(row: Row) { FactText(row, "ops") == "zigsched_minimal" }

  predicate IsAlive(row: Row) { Get(row, "workload_alive") == Some(JBool(true)) }

  // ----- one sample -----

  const UNAVAILABLE: set<string> := {"", "missing", "none", "null", "unavailable", "unknown"}

  predicate IsZeros(s: string) { |s| == 64 && forall i | 0 <= i < 64 :: s[i] == '0' }

  /** `validate_cgroup_membership` does not raise. */
  predicate HasMembership(row: Row) {
    IsObservedDigest(Get(row, "cgroup_membership_digest")) && IsPresent(Get(row, "cgroup_membership_status"))
  }

  predicate IsObservedDigest(v: Option<Json>) {
    v.Some? && v.value.JStr? && IsTaken(v.value.s) && !IsZeros(v.value.s) && Lower(v.value.s) !in UNAVAILABLE
  }

  /** What is taken for an observed digest: 64 hexadecimal digits that are not all zero, or any
      64, zeros too, with a final newline. */
  lemma ObservedDigestIff(s: string)
    ensures IsObservedDigest(Some(JStr(s))) <==>
      IsTaken(s) && !IsZeros(s)
  {
    if |s| == 64 || |s| == 65 { LongIsAvailable(Lower(s)); }
  }

  lemma LongIsAvailable(s: string)
    requires |s| > 11
    ensures s !in UNAVAILABLE
  {
    forall word | word in UNAVAILABLE ensures |word| <= 11 {}
  }

  predicate IsPresent(v: Option<Json>) {
    && v.Some? && v.value.JObject?
    && IsText(Get(v.value.fields, "status"), "present") && IsText(Get(v.value.fields, "value"), "present")
  }

  predicate AreEventsKnown(row: Row) {
    match Get(row, "events")
    case Some(JObject(events)) =>
      && IsText(Get(events, "status"), "present")
      && (match Get(events, "value") case Some(JStr(s)) => Lower(s) !in UNAVAILABLE case _ => false)
    case _ => false
  }

  /** `validate_required_counter_fact` of `nr_rejected`: `None` when it raises, else the
      number if one is present. */
  function CounterFact(row: Row): Option<Option<int>> {
    match Get(row, "nr_rejected")
    case Some(JObject(fact)) =>
      (match (Get(fact, "status"), Get(fact, "value"))
       case (Some(JStr(status)), Some(JStr(value))) =>
         if status == "present" then
           (if Decimals.IsDecimal(value) && AreEventsKnown(row) then Some(Some(Decimals.Value(value))) else None)
         else if status in {"unknown", "missing", "unreadable"} && Lower(value) in UNAVAILABLE then Some(None)
         else None
       case _ => None)
    case _ => None
  }

  predicate IsCounted(row: Row) { CounterFact(row).Some? }

  // ----- the series -----

  /** The counter fact is sound in both samples, and not higher in the last. */
  predicate FactStays(first: Option<Option<int>>, last: Option<Option<int>>) {
    && first.Some? && last.Some?
    && (first.value.Some? && last.value.Some? ==> last.value.value <= first.value.value)
  }

  /** Neither the counter fact nor a compared counter of the first sample is higher in the last. */
  predicate DoesNotGrow(first: Row, last: Row) {
    FactStays(CounterFact(first), CounterFact(last)) && NoneComparedGrows(ParseCounters(first), ParseCounters(last))
  }

  /** The observation's own summary of the run. */
  datatype Observation = Observation(aliveAllSamples: Option<bool>, executionPassed: bool)

  predicate AllAlive(rows: seq<Row>) { forall i | 0 <= i < |rows| :: IsAlive(rows[i]) }

  /** Detached at both ends, attached in between. */
  predicate IsAttachedInside(rows: seq<Row>) {
    && |rows| >= 3 && !IsAttached(rows[0]) && !IsAttached(rows[|rows| - 1])
    && exists i :: 0 < i < |rows| - 1 && IsAttached(rows[i])
  }

  predicate IsWorkloadSound(rows: seq<Row>, observe: Observation) {
    observe.aliveAllSamples == Some(AllAlive(rows)) && (AllAlive(rows) || observe.executionPassed)
  }

  predicate AreCountersSound(rows: seq<Row>)
    requires rows != []
  {
    (forall i | 0 <= i < |rows| :: IsCounted(rows[i])) && DoesNotGrow(rows[0], rows[|rows| - 1])
  }

  /** What a live series must be. */
  predicate IsLiveSeries(rows: seq<Row>, observe: Observation) {
    && IsAttachedInside(rows)
    && FactText(rows[|rows| - 1], "state") in {"disabled", "previous"}
    && IsWorkloadSound(rows, observe)
    && (forall i | 0 <= i < |rows| :: HasMembership(rows[i]))
    && AreCountersSound(rows)
  }

  /** The phases of `validate_samples`. */
  method ValidatePhases(rows: seq<Row>) returns (ok: bool)
    ensures ok <==> IsAttachedInside(rows)
  {
    if |rows| < 3 || IsAttached(rows[0]) { return false; }
    var during := false;
    for i := 1 to |rows| - 1
      invariant during <==> exists k :: 0 < k < i && IsAttached(rows[k])
    {
      during := during || IsAttached(rows[i]);
    }
    return during && !IsAttached(rows[|rows| - 1]);
  }

  method ValidateWorkload(rows: seq<Row>, observe: Observation) returns (ok: bool)
    ensures ok <==> IsWorkloadSound(rows, observe)
  {
    var alive := true;
    for i := 0 to |rows|
      invariant alive <==> forall k | 0 <= k < i :: IsAlive(rows[k])
    {
      alive := alive && IsAlive(rows[i]);
    }
    return observe.aliveAllSamples == Some(alive) && (alive || observe.executionPassed);
  }

  /** The loop over the counters that are compared. */
  method CompareCounters(before: map<string, nat>, after: map<string, nat>) returns (ok: bool)
    ensures ok <==> NoneComparedGrows(before, after)
  {
    for i := 0 to |COMPARED|
      invariant forall k | 0 <= k < i :: MayStay(before, after, COMPARED[k])
    {
      var name := COMPARED[i];
      if name in before && name in after && after[name] > before[name] { return false; }
    }
    return true;
  }

  /** `validate_counter_growth` does not raise. */
  method ValidateCounterGrowth(rows: seq<Row>) returns (ok: bool)
    requires rows != []
    ensures ok <==> AreCountersSound(rows)
  {
    var n := |rows|;
    for i := 0 to n
      invariant forall k | 0 <= k < i :: IsCounted(rows[k])
    {
      if !IsCounted(rows[i]) { return false; }
    }
    var first, last := rows[0], rows[n - 1];
    if !FactStays(CounterFact(first), CounterFact(last)) { return false; }
    ok := CompareCounters(ParseCounters(first), ParseCounters(last));
  }

  /** `validate_samples` does not raise. */
  method ValidateSamples(rows: seq<Row>, observe: Observation) returns (ok: bool)
    ensures ok <==> IsLiveSeries(rows, observe)
  {
    ok := ValidatePhases(rows);
    if !ok || FactText(rows[|rows| - 1], "state") !in {"disabled", "previous"} { return false; }
    ok := ValidateWorkload(rows, observe);
    if !ok { return false; }
    for i := 0 to |rows|
      invariant forall k | 0 <= k < i :: HasMembership(rows[k])
    {
      if !HasMembership(rows[i]) { return false; }
    }
    ok := ValidateCounterGrowth(rows);
  }

  // ----- edges -----

  predicate AttachesAt(rows: seq<Row>, i: int) { 0 < i < |rows| && !IsAttached(rows[i - 1]) && IsAttached(rows[i]) }
  predicate DetachesAt(rows: seq<Row>, i: int) { 0 < i < |rows| && IsAttached(rows[i - 1]) && !IsAttached(rows[i]) }

  function Attaches(rows: seq<Row>): nat {
    if |rows| < 2 then 0 else Attaches(rows[..|rows| - 1]) + if AttachesAt(rows, |rows| - 1) then 1 else 0
  }

  function Detaches(rows: seq<Row>): nat {
    if |rows| < 2 then 0 else Detaches(rows[..|rows| - 1]) + if DetachesAt(rows, |rows| - 1) then 1 else 0
  }

  /** Attaching and detaching alternate, so they balance up to the state at the ends. */
  lemma {:induction false} EdgesBalance(rows: seq<Row>)
    requires rows != []
    ensures Attaches(rows) - Detaches(rows) ==
      (if IsAttached(rows[|rows| - 1]) then 1 else 0) - (if IsAttached(rows[0]) then 1 else 0)
    decreases |rows|
  {
    if |rows| > 1 {
      EdgesBalance(rows[..|rows| - 1]);
    }
  }

  /** Between a detached and an attached sample the series attaches, and conversely. */
  lemma {:induction false} EdgeBetween(rows: seq<Row>, i: nat, j: nat) returns (k: nat)
    requires i < j < |rows| && IsAttached(rows[i]) != IsAttached(rows[j])
    ensures i < k <= j && if IsAttached(rows[j]) then AttachesAt(rows, k) else DetachesAt(rows, k)
    decreases j - i
  {
    if IsAttached(rows[j - 1]) == IsAttached(rows[j]) {
      k := EdgeBetween(rows, i, j - 1);
    } else {
      k := j;
    }
  }

  lemma {:induction false} EdgeIsCounted(rows: seq<Row>, k: nat)
    requires AttachesAt(rows, k)
    ensures Attaches(rows) > 0
    decreases |rows|
  {
    if k < |rows| - 1 {
      EdgeIsCounted(rows[..|rows| - 1], k);
    }
  }

  lemma AttachedInsideHasEdges(rows: seq<Row>)
    requires IsAttachedInside(rows)
    ensures HasEdges(rows)
  {
    var m: nat :| 0 < m < |rows| - 1 && IsAttached(rows[m]);
    var i := EdgeBetween(rows, 0, m);
    var j := EdgeBetween(rows, m, |rows| - 1);
    assert AttachesAt(rows, i) && DetachesAt(rows, j);
    EdgesBalance(rows);
    EdgeIsCounted(rows, i);
  }

  /** The series attaches and later detaches, and does each as often. */
  ghost predicate HasEdges(rows: seq<Row>) {
    && (exists i, j :: i < j && AttachesAt(rows, i) && DetachesAt(rows, j))
    && Attaches(rows) == Detaches(rows) > 0
  }

  /** So does every accepted one. */
  lemma AcceptedSeriesAttachesThenDetaches(rows: seq<Row>, observe: Observation)
    requires IsLiveSeries(rows, observe)
    ensures HasEdges(rows)
  {
    AttachedInsideHasEdges(rows);
  }

  // ----- the counter that is not compared -----

  /** No counter, compared or not, that the first and last samples both name grows. */
  predicate NoCounterGrows(rows: seq<Row>)
    requires rows != []
  {
    NoneGrows(ParseCounters(rows[0]), ParseCounters(rows[|rows| - 1]))
  }

  /** In an accepted series no counter grows iff `fallbacks` does not. */
  lemma NoCounterGrowsIff(rows: seq<Row>, observe: Observation)
    requires IsLiveSeries(rows, observe)
    ensures NoCounterGrows(rows) <==> MayStay(ParseCounters(rows[0]), ParseCounters(rows[|rows| - 1]), "fallbacks")
  {
    NoneGrowsIff(rows[0], rows[|rows| - 1]);
  }

  function Fact(status: string, value: string): Json { JObject(map["status" := JStr(status), "value" := JStr(value)]) }

  function Ones(n: nat): (s: string)
    ensures |s| == n && forall i | 0 <= i < n :: s[i] == '1'
  {
    if n == 0 then "" else Ones(n - 1) + "1"
  }

  function Sample(ops: string, fallbacks: string): Row {
    map[
      "ops" := Fact("present", ops), "state" := Fact("present", "disabled"), "workload_alive" := JBool(true),
      "cgroup_membership_digest" := JStr(Ones(64)), "cgroup_membership_status" := Fact("present", "present"),
      "nr_rejected" := Fact("unknown", ""), "events" := Fact("present", "fallbacks=" + fallbacks)]
  }

  /** Detached, attached, detached, with `fallbacks` as given at the ends. */
  function Series(before: string, after: string): seq<Row> {
    [Sample("", before), Sample("zigsched_minimal", before), Sample("", after)]
  }

  const ALIVE := Observation(Some(true), false)

  predicate HasFact(row: Row, field: string, status: string, value: string) {
    Get(row, field) == Some(Fact(status, value))
  }

  lemma SampleHasFacts(ops: string, fallbacks: string)
    ensures var row := Sample(ops, fallbacks);
      && HasFact(row, "ops", "present", ops) && HasFact(row, "state", "present", "disabled")
      && HasFact(row, "nr_rejected", "unknown", "") && HasFact(row, "events", "present", "fallbacks=" + fallbacks)
  {}

  lemma SampleIsMember(ops: string, fallbacks: string)
    ensures var row := Sample(ops, fallbacks);
      && IsAlive(row) && HasFact(row, "cgroup_membership_status", "present", "present")
      && Get(row, "cgroup_membership_digest") == Some(JStr(Ones(64)))
  {}

  lemma FactReads(row: Row, field: string, status: string, value: string)
    requires HasFact(row, field, status, value)
    ensures FactText(row, field) == value
  {}

  lemma MemberHolds(row: Row)
    requires HasFact(row, "cgroup_membership_status", "present", "present")
    requires Get(row, "cgroup_membership_digest") == Some(JStr(Ones(64)))
    ensures HasMembership(row)
  {
    OnesAreObserved(Ones(64));
    PresentIsPresent();
  }

  lemma OnesAreObserved(s: string)
    requires |s| == 64 && forall i | 0 <= i < 64 :: s[i] == '1'
    ensures IsObservedDigest(Some(JStr(s)))
  {
    LongIsAvailable(Lower(s));
    assert s[0] != '0' && IsDigest(s);
  }

  lemma PresentIsPresent()
    ensures IsPresent(Some(Fact("present", "present")))
  {}

  lemma UnknownCounter(row: Row)
    requires HasFact(row, "nr_rejected", "unknown", "")
    ensures CounterFact(row) == Some(None)
  {}

  lemma CountsFallbacks(row: Row, fallbacks: string)
    requires HasFact(row, "events", "present", "fallbacks=" + fallbacks) && Decimals.IsDecimal(fallbacks)
    ensures ParseCounters(row) == map["fallbacks" := Decimals.Value(fallbacks)]
  {
    FallbacksAlone(fallbacks);
  }

  predicate IsSoundSample(row: Row, attached: bool, fallbacks: nat) {
    && IsAttached(row) == attached && FactText(row, "state") in {"disabled", "previous"} && IsAlive(row)
    && HasMembership(row) && CountsOnly(row, fallbacks)
  }

  predicate CountsOnly(row: Row, fallbacks: nat) {
    CounterFact(row) == Some(None) && ParseCounters(row) == map["fallbacks" := fallbacks]
  }

  lemma SampleIsSound(ops: string, fallbacks: string)
    requires Decimals.IsDecimal(fallbacks)
    ensures IsSoundSample(Sample(ops, fallbacks), ops == "zigsched_minimal", Decimals.Value(fallbacks))
  {
    var row := Sample(ops, fallbacks);
    SampleHasFacts(ops, fallbacks);
    SampleIsMember(ops, fallbacks);
    FactReads(row, "ops", "present", ops);
    FactReads(row, "state", "present", "disabled");
    MemberHolds(row);
    UnknownCounter(row);
    CountsFallbacks(row, fallbacks);
  }

  lemma AllOfThree(rows: seq<Row>, p: Row -> bool)
    requires |rows| == 3 && p(rows[0]) && p(rows[1]) && p(rows[2])
    ensures forall i | 0 <= i < |rows| :: p(rows[i])
  {}

  lemma PhasesOfThree(rows: seq<Row>)
    requires |rows| == 3 && !IsAttached(rows[0]) && IsAttached(rows[1]) && !IsAttached(rows[2])
    ensures IsAttachedInside(rows)
  {
    assert 0 < 1 < |rows| - 1 && IsAttached(rows[1]);
  }

  lemma CountersOfThree(rows: seq<Row>)
    requires |rows| == 3 && forall i | 0 <= i < |rows| :: IsCounted(rows[i])
    requires FactStays(CounterFact(rows[0]), CounterFact(rows[2]))
    requires NoneComparedGrows(ParseCounters(rows[0]), ParseCounters(rows[2]))
    ensures AreCountersSound(rows)
  {}

  lemma FallbacksGrows(before: map<string, nat>, after: map<string, nat>)
    requires before.Keys == after.Keys == {"fallbacks"} && before["fallbacks"] < after["fallbacks"]
    ensures NoneComparedGrows(before, after) && !NoneGrows(before, after)
  {}

  lemma IsSeries(rows: seq<Row>)
    requires IsAttachedInside(rows) && FactText(rows[|rows| - 1], "state") in {"disabled", "previous"}
    requires (forall i | 0 <= i < |rows| :: IsAlive(rows[i])) && (forall i | 0 <= i < |rows| :: HasMembership(rows[i]))
    requires AreCountersSound(rows)
    ensures IsLiveSeries(rows, ALIVE)
  {}

  lemma SoundSamplesAreAccepted(r0: Row, r1: Row, r2: Row, before: nat, after: nat)
    requires IsSoundSample(r0, false, before) && IsSoundSample(r1, true, before) && IsSoundSample(r2, false, after)
    requires before < after
    ensures IsLiveSeries([r0, r1, r2], ALIVE)
  {
    var rows := [r0, r1, r2];
    PhasesOfThree(rows);
    AllOfThree(rows, IsAlive);
    AllOfThree(rows, HasMembership);
    SoundSamplesCount(r0, r1, r2, before, after);
    IsSeries(rows);
  }

  lemma SoundSamplesCount(r0: Row, r1: Row, r2: Row, before: nat, after: nat)
    requires CountsOnly(r0, before) && CountsOnly(r1, before) && CountsOnly(r2, after) && before < after
    ensures AreCountersSound([r0, r1, r2])
  {
    FallbacksGrows(ParseCounters(r0), ParseCounters(r2));
    AllOfThree([r0, r1, r2], IsCounted);
    CountersOfThree([r0, r1, r2]);
  }

  lemma SoundSamplesGrow(r0: Row, r1: Row, r2: Row, before: nat, after: nat)
    requires CountsOnly(r0, before) && CountsOnly(r2, after) && before < after
    ensures !NoCounterGrows([r0, r1, r2])
  {
    FallbacksGrows(ParseCounters(r0), ParseCounters(r2));
  }

  lemma GrowingSeries(before: string, after: string)
    requires Decimals.IsDecimal(before) && Decimals.IsDecimal(after) && Decimals.Value(before) < Decimals.Value(after)
    ensures IsLiveSeries(Series(before, after), ALIVE) && !NoCounterGrows(Series(before, after))
  {
    SampleIsSound("", before);
    SampleIsSound("zigsched_minimal", before);
    SampleIsSound("", after);
    var r0, r1, r2 := Sample("", before), Sample("zigsched_minimal", before), Sample("", after);
    SoundSamplesAreAccepted(r0, r1, r2, Decimals.Value(before), Decimals.Value(after));
    SoundSamplesGrow(r0, r1, r2, Decimals.Value(before), Decimals.Value(after));
  }

  /** A growing series that is accepted: `fallbacks` goes from 1 to 2. */
  lemma GrowingFallbacksIsAccepted(one: string, two: string)
    requires one == "1" && two == "2"
    ensures IsLiveSeries(Series(one, two), ALIVE) && !NoCounterGrows(Series(one, two))
  {
    assert one[..0] == "" && two[..0] == "";
    assert Decimals.Value(one) == 1 && Decimals.Value(two) == 2;
    GrowingSeries(one, two);
  }
}
