/** Three monitors that want an alert to follow the sample it is about
    (qa/runtime_sample_core.py, qa/frontend_contract_pack_semantics.py and
    qa/consumer_contract_check.py). */
module AlertOrder {
  import opened Wrappers
  import opened JsonValue
  import Decimals

  const REJECTED := "runtime_nr_rejected_nonzero"
  const DEAD := "runtime_workload_dead"
  const LOSS := "runtime_sample_loss"

  predicate HasReason(row: Row, reason: string) { IsText(Get(row, "reason"), reason) }
  predicate IsRejectedAlert(row: Row) { HasReason(row, REJECTED) }
  predicate IsDeadAlert(row: Row) { HasReason(row, DEAD) }
  predicate IsLossAlert(row: Row) { HasReason(row, LOSS) }

  predicate IsSample(row: Row) { IsText(Get(row, "event"), "runtime_sample") }

  /** A positive integer or a decimal text of one. */
  predicate IsPositive(v: Option<Json>) {
    match v
    case Some(JStr(s)) => Decimals.IsDecimal(s) && Decimals.Value(s) > 0
    case _ => AsInt(v).Some? && AsInt(v).value > 0
  }

  predicate IsRejectedSample(row: Row) { IsSample(row) && IsPositive(Get(row, "nr_rejected")) }
  predicate IsDeadSample(row: Row) { IsSample(row) && Get(row, "workload_alive") == Some(JBool(false)) }

  // ----- what is required -----

  predicate SeenBy(rows: seq<Row>, i: int, sample: Row -> bool) {
    exists j :: 0 <= j <= i && j < |rows| && sample(rows[j])
  }

  /** Every alert has a sample at or before it. */
  ghost predicate Follows(rows: seq<Row>, alert: Row -> bool, sample: Row -> bool) {
    forall i | 0 <= i < |rows| && alert(rows[i]) :: SeenBy(rows, i, sample)
  }

  ghost predicate AlertsFollow(rows: seq<Row>) {
    Follows(rows, IsRejectedAlert, IsRejectedSample) && Follows(rows, IsDeadAlert, IsDeadSample)
  }

  lemma SeenStep(rows: seq<Row>, i: nat, sample: Row -> bool)
    requires i < |rows|
    ensures SeenBy(rows, i, sample) <==> SeenBy(rows, i - 1, sample) || sample(rows[i])
  {}

  // ----- qa/runtime_sample_core.py -----

  /** `validate_alert_order` does not raise. */
  method ValidateAlertOrder(rows: seq<Row>) returns (ok: bool)
    ensures ok <==> AlertsFollow(rows)
  {
    var rejectedSeen, deadSeen := false, false;
    for i := 0 to |rows|
      invariant rejectedSeen == SeenBy(rows, i - 1, IsRejectedSample) && deadSeen == SeenBy(rows, i - 1, IsDeadSample)
      invariant forall k | 0 <= k < i :: IsRejectedAlert(rows[k]) ==> SeenBy(rows, k, IsRejectedSample)
      invariant forall k | 0 <= k < i :: IsDeadAlert(rows[k]) ==> SeenBy(rows, k, IsDeadSample)
    {
      var row := rows[i];
      SeenStep(rows, i, IsRejectedSample);
      SeenStep(rows, i, IsDeadSample);
      if IsSample(row) {
        if IsPositive(Get(row, "nr_rejected")) { rejectedSeen := true; }
        if Get(row, "workload_alive") == Some(JBool(false)) { deadSeen := true; }
      }
      if IsRejectedAlert(row) && !rejectedSeen { return false; }
      if IsDeadAlert(row) && !deadSeen { return false; }
    }
    return true;
  }

  /** An accepted stream was accepted all along. */
  lemma PrefixFollows(rows: seq<Row>, n: nat)
    requires AlertsFollow(rows) && n <= |rows|
    ensures AlertsFollow(rows[..n])
  {}

  // ----- qa/frontend_contract_pack_semantics.py -----

  datatype Verdict = Accepted | Precedes | NoSample | NoTerminal | TypeError

  predicate IsHashable(v: Option<Json>) { v.None? || !(v.value.JList? || v.value.JObject?) }

  predicate IsOneOf(v: Option<Json>, words: set<string>) { v.Some? && v.value.JStr? && v.value.s in words }

  /** `is_reasoned_terminal`; looking up a list or an object in a set raises (`None`). */
  function ReasonedTerminal(row: Row, reason: string): Option<bool> {
    if !HasReason(row, reason) then Some(false)
    else if !IsHashable(Get(row, "event")) then None
    else if !IsOneOf(Get(row, "event"), {"incident", "refusal"}) then Some(false)
    else if !IsHashable(Get(row, "status")) then None
    else Some(
      || IsOneOf(Get(row, "status"), {"REFUSE", "refused", "unsafe_to_assume", "INCIDENT"})
      || IsText(Get(row, "state"), "unsafe_to_assume"))
  }

  predicate Raises(row: Row, reason: string) { ReasonedTerminal(row, reason).None? }
  predicate Ends(row: Row, reason: string) { ReasonedTerminal(row, reason) == Some(true) }

  /** Row `i` is where the scan stops. */
  predicate StopsAt(rows: seq<Row>, reason: string, sample: Row -> bool, i: nat) {
    i < |rows| && (Raises(rows[i], reason) || (Ends(rows[i], reason) && !SeenBy(rows, i, sample)))
  }

  predicate GoesPast(rows: seq<Row>, reason: string, sample: Row -> bool, i: nat) {
    forall k: nat | k < i :: !StopsAt(rows, reason, sample, k)
  }

  ghost predicate IsVerdict(rows: seq<Row>, reason: string, sample: Row -> bool, verdict: Verdict) {
    match verdict
    case TypeError => exists i: nat :: StopsAt(rows, reason, sample, i) && GoesPast(rows, reason, sample, i) && Raises(rows[i], reason)
    case Precedes => exists i: nat :: StopsAt(rows, reason, sample, i) && GoesPast(rows, reason, sample, i) && Ends(rows[i], reason)
    case NoSample => GoesPast(rows, reason, sample, |rows|) && !SeenBy(rows, |rows| - 1, sample)
    case NoTerminal =>
      GoesPast(rows, reason, sample, |rows|) && SeenBy(rows, |rows| - 1, sample) && forall row | row in rows :: !Ends(row, reason)
    case Accepted =>
      GoesPast(rows, reason, sample, |rows|) && SeenBy(rows, |rows| - 1, sample) && exists row | row in rows :: Ends(row, reason)
  }

  /** The two runtime-alert branches of `validate_scenario_semantics`; `reason` and `sample`
      are what they differ in. */
  method ValidateRuntimeAlert(rows: seq<Row>, reason: string, sample: Row -> bool) returns (verdict: Verdict)
    ensures IsVerdict(rows, reason, sample, verdict)
  {
    var sampleSeen := false;
    for i := 0 to |rows|
      invariant sampleSeen == SeenBy(rows, i - 1, sample) && GoesPast(rows, reason, sample, i)
    {
      SeenStep(rows, i, sample);
      if sample(rows[i]) { sampleSeen := true; }
      var terminal := ReasonedTerminal(rows[i], reason);
      if terminal.None? {
        assert StopsAt(rows, reason, sample, i);
        return TypeError;
      }
      if terminal.value && !sampleSeen {
        assert StopsAt(rows, reason, sample, i);
        return Precedes;
      }
    }
    if !sampleSeen { return NoSample; }
    for i := 0 to |rows|
      invariant forall k | 0 <= k < i :: !Ends(rows[k], reason)
    {
      if ReasonedTerminal(rows[i], reason) == Some(true) {
        assert rows[i] in rows;
        return Accepted;
      }
    }
    return NoTerminal;
  }

  lemma OneVerdict(rows: seq<Row>, reason: string, sample: Row -> bool, one: Verdict, other: Verdict)
    requires IsVerdict(rows, reason, sample, one) && IsVerdict(rows, reason, sample, other)
    ensures one == other
  {}

  /** A stream whose alerts follow their samples never fails the contract pack's ordering. */
  lemma FollowingImpliesPackOrder(rows: seq<Row>, verdict: Verdict)
    requires AlertsFollow(rows)
    ensures IsVerdict(rows, REJECTED, IsRejectedSample, verdict) ==> verdict != Precedes
    ensures IsVerdict(rows, DEAD, IsDeadSample, verdict) ==> verdict != Precedes
  {}

  /** The contract pack orders only rows that end a scenario: it says "precedes" iff, before any row
      it cannot read, one of those has no sample. */
  lemma PackOrderIff(rows: seq<Row>, reason: string, sample: Row -> bool)
    requires forall row | row in rows :: !Raises(row, reason)
    ensures IsVerdict(rows, reason, sample, Precedes) <==>
      !Follows(rows, row => Ends(row, reason), sample)
  {
    var ends := row => Ends(row, reason);
    if i :| 0 <= i < |rows| && ends(rows[i]) && !SeenBy(rows, i, sample) {
      FirstStop(rows, reason, sample, i);
    }
    if IsVerdict(rows, reason, sample, Precedes) {
      var i: nat :| StopsAt(rows, reason, sample, i) && GoesPast(rows, reason, sample, i) && Ends(rows[i], reason);
      assert rows[i] in rows && ends(rows[i]);
    }
  }

  lemma {:induction false} FirstStop(rows: seq<Row>, reason: string, sample: Row -> bool, i: nat)
    requires forall row | row in rows :: !Raises(row, reason)
    requires StopsAt(rows, reason, sample, i)
    ensures IsVerdict(rows, reason, sample, Precedes)
    decreases i
  {
    if k: nat :| k < i && StopsAt(rows, reason, sample, k) {
      FirstStop(rows, reason, sample, k);
    } else {
      assert GoesPast(rows, reason, sample, i);
      assert rows[i] in rows;
    }
  }

  predicate IsFailedProof(row: Row, event: string, reason: string) {
    IsText(Get(row, "event"), event) && IsText(Get(row, "status"), "FAIL") && HasReason(row, reason)
  }

  ghost predicate FailsThenEnds(rows: seq<Row>, event: string, reason: string) {
    exists i, j :: 0 <= i < j < |rows| && IsFailedProof(rows[i], event, reason) && Ends(rows[j], reason)
  }

  /** `require_failed_proof_incident` looks after the first failed row only, and that is
      enough: it accepts iff some failed row has an ending after it. */
  method RequireFailedProofIncident(rows: seq<Row>, event: string, reason: string) returns (ok: bool)
    ensures ok ==> FailsThenEnds(rows, event, reason)
    ensures (forall row | row in rows :: !Raises(row, reason)) ==> (ok <==> FailsThenEnds(rows, event, reason))
  {
    var first := 0;
    while first < |rows| && !IsFailedProof(rows[first], event, reason)
      invariant 0 <= first <= |rows| && forall k | 0 <= k < first :: !IsFailedProof(rows[k], event, reason)
    {
      first := first + 1;
    }
    if first == |rows| { return false; }
    for j := first + 1 to |rows|
      invariant forall k | first < k < j :: !Ends(rows[k], reason)
    {
      assert rows[j] in rows;
      var terminal := ReasonedTerminal(rows[j], reason);
      if terminal.None? { return false; }
      if terminal.value { return true; }
    }
    return false;
  }

  // ----- qa/consumer_contract_check.py -----

  /** A text other than "" and "0". */
  predicate IsNonzeroText(v: Option<Json>) { v.Some? && v.value.JStr? && v.value.s != "" && v.value.s != "0" }

  /** `== 7`, which 7.0 also meets. */
  predicate IsSeven(v: Option<Json>) { v == Some(JInt(7)) || v == Some(JFloat(7.0)) }

  predicate IsNonzeroSample(row: Row) { IsSample(row) && IsNonzeroText(Get(row, "nr_rejected")) }
  predicate IsLossSample(row: Row) { IsSample(row) && IsSeven(Get(row, "sample_sequence")) }

  predicate IsReadable(row: Row) { HasEvent(row) && (IsSample(row) ==> IsText(Get(row, "status"), "accepted")) }

  ghost predicate ConsumerFollows(rows: seq<Row>) {
    && (forall i | 0 <= i < |rows| :: IsReadable(rows[i]))
    && Follows(rows, IsRejectedAlert, IsNonzeroSample) && Follows(rows, IsDeadAlert, IsDeadSample)
    && Follows(rows, IsLossAlert, IsLossSample)
  }

  /** Row `i` passes, given what has been seen by then. */
  predicate RowPasses(rows: seq<Row>, i: nat)
    requires i < |rows|
  {
    && IsReadable(rows[i])
    && (IsRejectedAlert(rows[i]) ==> SeenBy(rows, i, IsNonzeroSample))
    && (IsDeadAlert(rows[i]) ==> SeenBy(rows, i, IsDeadSample))
    && (IsLossAlert(rows[i]) ==> SeenBy(rows, i, IsLossSample))
  }

  lemma FollowsRowByRow(rows: seq<Row>)
    ensures ConsumerFollows(rows) <==> forall i: nat | i < |rows| :: RowPasses(rows, i)
  {
    if forall i: nat | i < |rows| :: RowPasses(rows, i) {
      forall i | 0 <= i < |rows| ensures IsReadable(rows[i]) { assert RowPasses(rows, i); }
      forall i | 0 <= i < |rows| && IsRejectedAlert(rows[i]) ensures SeenBy(rows, i, IsNonzeroSample) { assert RowPasses(rows, i); }
      forall i | 0 <= i < |rows| && IsDeadAlert(rows[i]) ensures SeenBy(rows, i, IsDeadSample) { assert RowPasses(rows, i); }
      forall i | 0 <= i < |rows| && IsLossAlert(rows[i]) ensures SeenBy(rows, i, IsLossSample) { assert RowPasses(rows, i); }
    }
  }

  /** `validate_runtime_samples` does not raise. */
  method ValidateRuntimeSamples(rows: seq<Row>) returns (ok: bool)
    ensures ok <==> ConsumerFollows(rows)
  {
    var rejectedSeen, deadSeen, lossSeen := false, false, false;
    FollowsRowByRow(rows);
    for i := 0 to |rows|
      invariant rejectedSeen == SeenBy(rows, i - 1, IsNonzeroSample) && deadSeen == SeenBy(rows, i - 1, IsDeadSample)
      invariant lossSeen == SeenBy(rows, i - 1, IsLossSample)
      invariant forall k: nat | k < i :: RowPasses(rows, k)
    {
      var row := rows[i];
      SeenStep(rows, i, IsNonzeroSample);
      SeenStep(rows, i, IsDeadSample);
      SeenStep(rows, i, IsLossSample);
      if !HasEvent(row) { return false; }
      if IsSample(row) {
        if !IsText(Get(row, "status"), "accepted") { return false; }
        rejectedSeen := rejectedSeen || IsNonzeroText(Get(row, "nr_rejected"));
        deadSeen := deadSeen || Get(row, "workload_alive") == Some(JBool(false));
        lossSeen := lossSeen || IsSeven(Get(row, "sample_sequence"));
      }
      if IsRejectedAlert(row) && !rejectedSeen { return false; }
      if IsDeadAlert(row) && !deadSeen { return false; }
      if IsLossAlert(row) && !lossSeen { return false; }
    }
    return true;
  }

  // ----- the first and third agree on canonical numbers, and only there -----

  /** No leading zero: as Python prints a number. */
  predicate IsCanonical(s: string) { Decimals.IsDecimal(s) && (|s| > 1 ==> s[0] != '0') }

  lemma {:induction false} CanonicalValue(s: string)
    requires IsCanonical(s)
    ensures Decimals.Value(s) == 0 <==> s == "0"
    decreases |s|
  {
    if |s| == 1 {
      assert s[..0] == "";
      assert s == [s[0]];
    } else {
      var front := s[..|s| - 1];
      assert front[0] == s[0];
      CanonicalValue(front);
      assert Decimals.Value(s) == 10 * Decimals.Value(front) + (s[|s| - 1] - '0') as nat;
    }
  }

  /** Both readings of a counter agree on an absent one and on a canonical decimal. */
  lemma CanonicalReadingsAgree(v: Option<Json>)
    requires v.None? || (v.value.JStr? && IsCanonical(v.value.s))
    ensures IsPositive(v) <==> IsNonzeroText(v)
  {
    if v.Some? { CanonicalValue(v.value.s); }
  }

  /** Exactly where they differ: on positive numbers that are no texts (True counts as 1),
      and on texts other than "" and "0" that are not decimals of a positive number. */
  lemma ReadingsDifferIff(v: Option<Json>)
    ensures (IsPositive(v) <==> IsNonzeroText(v)) <==>
      match v
      case Some(JInt(n)) => n <= 0
      case Some(JBool(b)) => !b
      case Some(JStr(s)) => s == "" || s == "0" || (Decimals.IsDecimal(s) && Decimals.Value(s) > 0)
      case _ => true
  {
    if v == Some(JStr("0")) { CanonicalValue("0"); }
  }

  predicate ReadingsAgree(row: Row) {
    IsSample(row) ==> (IsPositive(Get(row, "nr_rejected")) <==> IsNonzeroText(Get(row, "nr_rejected")))
  }

  const REJECTED_ALERT: Row := map["reason" := JStr(REJECTED)]

  ghost predicate SameVerdict(rows: seq<Row>) {
    Follows(rows, IsRejectedAlert, IsRejectedSample) <==> Follows(rows, IsRejectedAlert, IsNonzeroSample)
  }

  /** Over any set of rows that an alert may join, the two monitors give every stream the
      same verdict on rejections iff they read every row's counter alike. */
  lemma MonitorsAgreeIffReadingsDo(rows: set<Row>)
    requires REJECTED_ALERT in rows
    ensures (forall stream: seq<Row> | (forall row | row in stream :: row in rows) :: SameVerdict(stream))
      <==> forall row | row in rows :: ReadingsAgree(row)
  {
    if row :| row in rows && !ReadingsAgree(row) {
      var stream := [row, REJECTED_ALERT];
      assert stream[0] == row && stream[1] == REJECTED_ALERT;
      assert IsRejectedAlert(stream[1]) && !IsSample(stream[1]);
      OneSample(stream, IsRejectedSample);
      OneSample(stream, IsNonzeroSample);
      assert !SameVerdict(stream);
    } else {
      forall stream: seq<Row> | (forall row | row in stream :: row in rows) ensures SameVerdict(stream) {
        forall i | 0 <= i < |stream| ensures SeenBy(stream, i, IsRejectedSample) <==> SeenBy(stream, i, IsNonzeroSample) {
          assert forall j | 0 <= j < |stream| :: stream[j] in rows && ReadingsAgree(stream[j]);
        }
      }
    }
  }

  lemma OneSample(stream: seq<Row>, sample: Row -> bool)
    requires |stream| == 2 && IsRejectedAlert(stream[1]) && !sample(stream[1])
    ensures Follows(stream, IsRejectedAlert, sample) <==> sample(stream[0])
  {}

  /** A stream the third monitor accepts is accepted by the first, if every sample's
      counter is absent or a canonical decimal. */
  lemma ConsumerOrderAgrees(rows: seq<Row>)
    requires forall row | row in rows && IsSample(row) ::
      var v := Get(row, "nr_rejected"); v.None? || (v.value.JStr? && IsCanonical(v.value.s))
    ensures AlertsFollow(rows) <==> Follows(rows, IsRejectedAlert, IsNonzeroSample) && Follows(rows, IsDeadAlert, IsDeadSample)
    ensures ConsumerFollows(rows) ==> AlertsFollow(rows)
  {
    forall i | 0 <= i < |rows| ensures IsRejectedSample(rows[i]) <==> IsNonzeroSample(rows[i]) {
      assert rows[i] in rows;
      if IsSample(rows[i]) { CanonicalReadingsAgree(Get(rows[i], "nr_rejected")); }
    }
    forall i | 0 <= i < |rows| ensures SeenBy(rows, i, IsRejectedSample) <==> SeenBy(rows, i, IsNonzeroSample) {}
  }
}
