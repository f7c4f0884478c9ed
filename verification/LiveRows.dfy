/** What a live series must be, field by field of its samples and in the event texts themselves. */
module LiveRows {
  import opened Wrappers
  import opened JsonValue
  import opened MonitorRows
  import Chars
  import CounterText
  import EventCounters
  import LiveSeries

  // ----- facts -----

  /** The fact says this text. */
  predicate SaysFact(row: Row, field: string, status: string, value: string) {
    && field in row && row[field].JObject?
    && Says(row[field].fields, "status", status) && Says(row[field].fields, "value", value)
  }

  /** The text of a fact's value is this; "" where there is none. */
  predicate ShowsText(row: Row, field: string, s: string) {
    if field in row && row[field].JObject? && "value" in row[field].fields && row[field].fields["value"].JStr?
    then row[field].fields["value"].s == s else s == ""
  }

  predicate IsAttached(row: Row) { ShowsText(row, "ops", "zigsched_minimal") }

  lemma FactTextIs(row: Row, field: string, s: string)
    ensures LiveSeries.FactText(row, field) == s <==> ShowsText(row, field, s)
  {}

  /** "", missing, none, null, unavailable or unknown, in any case. */
  predicate IsUnavailable(s: string) {
    || s == "" || IsInAnyCase(s, "missing") || IsInAnyCase(s, "none") || IsInAnyCase(s, "null")
    || IsInAnyCase(s, "unavailable") || IsInAnyCase(s, "unknown")
  }

  predicate IsInAnyCase(s: string, word: string) {
    |s| == |word| && forall i | 0 <= i < |s| :: Chars.LowerChar(s[i]) == word[i]
  }

  lemma LoweredIs(s: string, word: string)
    ensures Chars.Lower(s) == word <==> IsInAnyCase(s, word)
  {}

  lemma UnavailableIff(s: string)
    ensures Chars.Lower(s) in LiveSeries.UNAVAILABLE <==> IsUnavailable(s)
  {
    LoweredIs(s, "missing");
    LoweredIs(s, "none");
    LoweredIs(s, "null");
    LoweredIs(s, "unavailable");
    LoweredIs(s, "unknown");
    LoweredIs(s, "");
    var lowered := Chars.Lower(s);
    assert lowered in LiveSeries.UNAVAILABLE <==>
      lowered == "" || lowered == "missing" || lowered == "none" || lowered == "null" || lowered == "unavailable" || lowered == "unknown";
  }

  // ----- one sample -----

  /** 64 hexadecimal digits, a newline perhaps after them, but not 64 zeros. */
  predicate IsObservedText(s: string) {
    && (|s| == 64 || (|s| == 65 && s[64] == '\n')) && (forall i | 0 <= i < 64 :: '0' <= s[i] <= '9' || 'a' <= s[i] <= 'f')
    && (|s| == 64 ==> exists i | 0 <= i < 64 :: s[i] != '0')
  }

  predicate IsObserved(row: Row) {
    && "cgroup_membership_digest" in row && row["cgroup_membership_digest"].JStr?
    && IsObservedText(row["cgroup_membership_digest"].s)
    && SaysFact(row, "cgroup_membership_status", "present", "present")
  }

  lemma MembershipIff(row: Row)
    ensures LiveSeries.HasMembership(row) <==> IsObserved(row)
  {
    if "cgroup_membership_digest" in row && row["cgroup_membership_digest"].JStr? {
      LiveSeries.ObservedDigestIff(row["cgroup_membership_digest"].s);
    }
  }

  predicate KnowsEvents(row: Row) {
    && "events" in row && row["events"].JObject? && Says(row["events"].fields, "status", "present")
    && "value" in row["events"].fields && row["events"].fields["value"].JStr? && !IsUnavailable(row["events"].fields["value"].s)
  }

  /** The row says that the counter is `n`, and knows its events. */
  predicate Counts(row: Row, n: int) {
    && KnowsEvents(row) && "nr_rejected" in row && row["nr_rejected"].JObject?
    && Says(row["nr_rejected"].fields, "status", "present")
    && "value" in row["nr_rejected"].fields && row["nr_rejected"].fields["value"].JStr?
    && IsDecimalOf(row["nr_rejected"].fields["value"].s, n)
  }

  /** The row says that it has no counter. */
  predicate CountsNothing(row: Row) {
    && "nr_rejected" in row && row["nr_rejected"].JObject?
    && (Says(row["nr_rejected"].fields, "status", "unknown") || Says(row["nr_rejected"].fields, "status", "missing")
        || Says(row["nr_rejected"].fields, "status", "unreadable"))
    && "value" in row["nr_rejected"].fields && row["nr_rejected"].fields["value"].JStr?
    && IsUnavailable(row["nr_rejected"].fields["value"].s)
  }

  lemma EventsKnownIff(row: Row)
    ensures LiveSeries.AreEventsKnown(row) <==> KnowsEvents(row)
  {
    if "events" in row && row["events"].JObject? && "value" in row["events"].fields && row["events"].fields["value"].JStr? {
      UnavailableIff(row["events"].fields["value"].s);
    }
  }

  lemma CounterFactIff(row: Row, n: int)
    ensures LiveSeries.CounterFact(row) == Some(Some(n)) <==> Counts(row, n)
    ensures LiveSeries.CounterFact(row) == Some(None) <==> CountsNothing(row)
  {
    EventsKnownIff(row);
    if "nr_rejected" in row && row["nr_rejected"].JObject? && "value" in row["nr_rejected"].fields
      && row["nr_rejected"].fields["value"].JStr?
    {
      UnavailableIff(row["nr_rejected"].fields["value"].s);
      DecimalIff(row["nr_rejected"].fields["value"].s, n);
    }
  }

  /** The row says one or the other. */
  ghost predicate IsCounted(row: Row) { CountsNothing(row) || exists n :: Counts(row, n) }

  lemma CountedIff(row: Row)
    ensures LiveSeries.IsCounted(row) <==> IsCounted(row)
  {
    forall n ensures LiveSeries.CounterFact(row) == Some(Some(n)) <==> Counts(row, n) { CounterFactIff(row, n); }
    CounterFactIff(row, 0);
  }

  // ----- counters in the event text -----

  /** The last counter of this name in the row's event text gives this value. */
  ghost predicate Reports(row: Row, name: string, value: nat) {
    && "events" in row && row["events"].JObject?
    && "value" in row["events"].fields && row["events"].fields["value"].JStr?
    && CounterText.IsLastCount(row["events"].fields["value"].s, name, value)
  }

  lemma ReportsIff(row: Row, name: string, value: nat)
    requires CounterText.IsName(name)
    ensures CounterText.Holds(EventCounters.ParseCounters(row), name, value) <==> Reports(row, name, value)
  {
    if "events" in row && row["events"].JObject? && "value" in row["events"].fields && row["events"].fields["value"].JStr? {
      CounterText.TableHoldsLastCounts(row["events"].fields["value"].s, name, value);
    }
  }

  /** It is not reported higher in the last sample than in the first. */
  ghost predicate DoesNotRise(first: Row, last: Row, name: string) {
    forall n: nat, m: nat | Reports(first, name, n) && Reports(last, name, m) :: m <= n
  }

  lemma MayStayIff(first: Row, last: Row, name: string)
    requires CounterText.IsName(name)
    ensures EventCounters.MayStay(EventCounters.ParseCounters(first), EventCounters.ParseCounters(last), name)
      <==> DoesNotRise(first, last, name)
  {
    var before, after := EventCounters.ParseCounters(first), EventCounters.ParseCounters(last);
    forall value: nat
      ensures CounterText.Holds(before, name, value) <==> Reports(first, name, value)
      ensures CounterText.Holds(after, name, value) <==> Reports(last, name, value)
    {
      ReportsIff(first, name, value);
      ReportsIff(last, name, value);
    }
    if DoesNotRise(first, last, name) && name in before && name in after {
      assert CounterText.Holds(before, name, before[name]) && CounterText.Holds(after, name, after[name]);
    }
  }

  ghost predicate NoneRises(first: Row, last: Row) {
    && DoesNotRise(first, last, "nr_rejected") && DoesNotRise(first, last, "dispatch_failed")
    && DoesNotRise(first, last, "fallback") && DoesNotRise(first, last, "fatal")
  }

  lemma ComparedAre(before: map<string, nat>, after: map<string, nat>)
    ensures EventCounters.NoneComparedGrows(before, after) <==>
      && EventCounters.MayStay(before, after, "nr_rejected") && EventCounters.MayStay(before, after, "dispatch_failed")
      && EventCounters.MayStay(before, after, "fallback") && EventCounters.MayStay(before, after, "fatal")
  {
    var c := EventCounters.COMPARED;
    assert |c| == 4 && c[0] == "nr_rejected" && c[1] == "dispatch_failed" && c[2] == "fallback" && c[3] == "fatal";
    if EventCounters.NoneComparedGrows(before, after) {
      assert EventCounters.MayStay(before, after, c[0]) && EventCounters.MayStay(before, after, c[1]);
      assert EventCounters.MayStay(before, after, c[2]) && EventCounters.MayStay(before, after, c[3]);
    }
  }

  lemma NoneRisesIff(first: Row, last: Row)
    ensures EventCounters.NoneComparedGrows(EventCounters.ParseCounters(first), EventCounters.ParseCounters(last))
      <==> NoneRises(first, last)
  {
    ComparedAre(EventCounters.ParseCounters(first), EventCounters.ParseCounters(last));
    MayStayIff(first, last, "nr_rejected");
    MayStayIff(first, last, "dispatch_failed");
    MayStayIff(first, last, "fallback");
    MayStayIff(first, last, "fatal");
  }

  // ----- the series -----

  ghost predicate DoesNotGrow(first: Row, last: Row) {
    (forall n, m | Counts(first, n) && Counts(last, m) :: m <= n) && NoneRises(first, last)
  }

  lemma GrowthIff(first: Row, last: Row)
    requires LiveSeries.IsCounted(first) && LiveSeries.IsCounted(last)
    ensures LiveSeries.DoesNotGrow(first, last) <==> DoesNotGrow(first, last)
  {
    NoneRisesIff(first, last);
    forall n
      ensures LiveSeries.CounterFact(first) == Some(Some(n)) <==> Counts(first, n)
      ensures LiveSeries.CounterFact(last) == Some(Some(n)) <==> Counts(last, n)
    {
      CounterFactIff(first, n);
      CounterFactIff(last, n);
    }
    var a, b := LiveSeries.CounterFact(first).value, LiveSeries.CounterFact(last).value;
    if DoesNotGrow(first, last) && a.Some? && b.Some? {
      assert Counts(first, a.value) && Counts(last, b.value);
    }
  }

  predicate IsAlive(row: Row) { Get(row, "workload_alive") == Some(JBool(true)) }

  /** Detached at both ends and attached in between, restored at the end. */
  predicate IsAttachedInside(rows: seq<Row>) {
    && |rows| >= 3 && !IsAttached(rows[0]) && !IsAttached(rows[|rows| - 1])
    && (exists i | 0 < i < |rows| - 1 :: IsAttached(rows[i]))
    && (ShowsText(rows[|rows| - 1], "state", "disabled") || ShowsText(rows[|rows| - 1], "state", "previous"))
  }

  /** The observation tells whether the workload was alive in all samples, and if it was not it
      passed all the same. */
  predicate IsWorkloadTold(rows: seq<Row>, observe: LiveSeries.Observation) {
    && observe.aliveAllSamples.Some?
    && (observe.aliveAllSamples.value <==> forall i | 0 <= i < |rows| :: IsAlive(rows[i]))
    && (observe.aliveAllSamples.value || observe.executionPassed)
  }

  ghost predicate AreCountersSound(rows: seq<Row>)
    requires rows != []
  {
    (forall i | 0 <= i < |rows| :: IsCounted(rows[i])) && DoesNotGrow(rows[0], rows[|rows| - 1])
  }

  ghost predicate IsLive(rows: seq<Row>, observe: LiveSeries.Observation) {
    && IsAttachedInside(rows) && IsWorkloadTold(rows, observe)
    && (forall i | 0 <= i < |rows| :: IsObserved(rows[i])) && AreCountersSound(rows)
  }

  lemma PhasesIff(rows: seq<Row>)
    requires |rows| >= 3
    ensures
      LiveSeries.IsAttachedInside(rows) && LiveSeries.FactText(rows[|rows| - 1], "state") in {"disabled", "previous"}
      <==> IsAttachedInside(rows)
  {
    forall i | 0 <= i < |rows| ensures LiveSeries.IsAttached(rows[i]) <==> IsAttached(rows[i]) {
      FactTextIs(rows[i], "ops", "zigsched_minimal");
    }
    FactTextIs(rows[|rows| - 1], "state", "disabled");
    FactTextIs(rows[|rows| - 1], "state", "previous");
  }

  lemma WorkloadIff(rows: seq<Row>, observe: LiveSeries.Observation)
    ensures LiveSeries.IsWorkloadSound(rows, observe) <==> IsWorkloadTold(rows, observe)
  {
    assert LiveSeries.AllAlive(rows) <==> forall i | 0 <= i < |rows| :: IsAlive(rows[i]);
  }

  lemma ObservedIff(rows: seq<Row>)
    ensures (forall i | 0 <= i < |rows| :: LiveSeries.HasMembership(rows[i])) <==> forall i | 0 <= i < |rows| :: IsObserved(rows[i])
  {
    forall i | 0 <= i < |rows| ensures LiveSeries.HasMembership(rows[i]) <==> IsObserved(rows[i]) { MembershipIff(rows[i]); }
  }

  lemma CountersIff(rows: seq<Row>)
    requires rows != []
    ensures LiveSeries.AreCountersSound(rows) <==> AreCountersSound(rows)
  {
    forall i | 0 <= i < |rows| ensures LiveSeries.IsCounted(rows[i]) <==> IsCounted(rows[i]) { CountedIff(rows[i]); }
    if forall i | 0 <= i < |rows| :: IsCounted(rows[i]) { GrowthIff(rows[0], rows[|rows| - 1]); }
  }

  /** Exactly which series are live. */
  lemma LiveIff(rows: seq<Row>, observe: LiveSeries.Observation)
    ensures LiveSeries.IsLiveSeries(rows, observe) <==> IsLive(rows, observe)
  {
    if |rows| >= 3 {
      PhasesIff(rows);
      WorkloadIff(rows, observe);
      ObservedIff(rows);
      CountersIff(rows);
    }
  }
}
