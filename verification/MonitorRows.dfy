/** What the monitors ask of a stream, field by field of its rows: the events, reasons, states and
    numbers themselves, instead of the readings of a row that the passes use. */
module MonitorRows {
  import opened Wrappers
  import opened JsonValue
  import AlertOrder
  import Chars
  import Decimals
  import EventJournal
  import FailureTerminal
  import SchedExtSequence

  predicate Says(row: Row, field: string, s: string) { Get(row, field) == Some(JStr(s)) }

  predicate HasText(row: Row, field: string) { field in row && row[field].JStr? && row[field].s != "" }

  /** An integer, True being 1 and False 0. */
  predicate IsInteger(v: Option<Json>, n: int) {
    v == Some(JInt(n)) || (v == Some(JBool(true)) && n == 1) || (v == Some(JBool(false)) && n == 0)
  }

  // ----- failures and their incidents -----

  predicate FailsAt(row: Row) {
    (Says(row, "event", "rollback") || Says(row, "event", "cleanup")) && Says(row, "status", "FAIL")
  }

  predicate EndsAt(row: Row, reason: string) {
    && Says(row, "event", "incident") && Says(row, "reason", reason)
    && (Says(row, "status", "INCIDENT") || Says(row, "status", "REFUSE") || Says(row, "status", "refused")
        || Says(row, "status", "unsafe_to_assume") || Says(row, "status", "FAIL") || Says(row, "status", "SKIP"))
  }

  /** Every row names an event, and every failed rollback or cleanup gives a reason and is followed
      by a bad incident with that reason. */
  predicate FailuresAreEnded(rows: seq<Row>) {
    && (forall i | 0 <= i < |rows| :: HasText(rows[i], "event"))
    && forall i | 0 <= i < |rows| && FailsAt(rows[i]) ::
         HasText(rows[i], "reason") && exists j | i < j < |rows| :: EndsAt(rows[j], rows[i]["reason"].s)
  }

  lemma FailureIs(row: Row)
    ensures FailureTerminal.IsFailure(row) <==> FailsAt(row)
    ensures FailureTerminal.Event(row).Some? <==> HasText(row, "event")
    ensures HasText(row, "reason") <==> FailureTerminal.Reason(row) != ""
    ensures HasText(row, "reason") ==> row["reason"].s == FailureTerminal.Reason(row)
  {}

  lemma TerminalIs(row: Row, reason: string)
    requires reason != ""
    ensures FailureTerminal.IsTerminal(row, reason) <==> EndsAt(row, reason)
  {}

  lemma EndsAfterIff(rows: seq<Row>, i: nat, reason: string)
    requires i < |rows| && reason != ""
    ensures FailureTerminal.EndsAfter(rows, i, reason) <==> exists j | i < j < |rows| :: EndsAt(rows[j], reason)
  {
    forall j | i < j < |rows| ensures FailureTerminal.IsTerminal(rows[j], reason) <==> EndsAt(rows[j], reason) {
      TerminalIs(rows[j], reason);
    }
  }

  lemma FailuresEndIff(rows: seq<Row>)
    ensures FailureTerminal.FailuresEnd(rows) <==> FailuresAreEnded(rows)
  {
    forall i | 0 <= i < |rows|
      ensures FailureTerminal.IsFailure(rows[i]) <==> FailsAt(rows[i])
      ensures FailureTerminal.Event(rows[i]).Some? <==> HasText(rows[i], "event")
      ensures HasText(rows[i], "reason") <==> FailureTerminal.Reason(rows[i]) != ""
      ensures HasText(rows[i], "reason") ==>
        (FailureTerminal.EndsAfter(rows, i, FailureTerminal.Reason(rows[i]))
         <==> exists j | i < j < |rows| :: EndsAt(rows[j], rows[i]["reason"].s))
    {
      FailureIs(rows[i]);
      if HasText(rows[i], "reason") { EndsAfterIff(rows, i, rows[i]["reason"].s); }
    }
  }

  // ----- numbered rows -----

  predicate IsDaemonRow(row: Row) {
    Says(row, "schema", "zig-scheduler/daemon-event/v1") && Get(row, "host_mutation") == Some(JBool(false))
  }

  /** The journal: row i is number i + 1, and names an event. */
  predicate IsNumberedJournal(rows: seq<Row>) {
    && rows != []
    && forall i | 0 <= i < |rows| ::
         IsDaemonRow(rows[i]) && IsInteger(Get(rows[i], "seq"), i + 1) && HasText(rows[i], "event")
  }

  lemma IntegerIff(v: Option<Json>, n: int)
    ensures AsInt(v) == Some(n) <==> IsInteger(v, n)
  {}

  lemma JournalRowIff(row: Row, n: int)
    ensures
      EventJournal.SeqIs(row, n) && EventJournal.IsDaemonRow(row) && EventJournal.IntSeq(row).Some? && HasEvent(row)
      <==> IsDaemonRow(row) && IsInteger(Get(row, "seq"), n) && HasText(row, "event")
  {
    IntegerIff(Get(row, "seq"), n);
  }

  lemma JournalIff(rows: seq<Row>)
    ensures EventJournal.IsJournal(rows) <==> IsNumberedJournal(rows)
  {
    forall i | 0 <= i < |rows|
      ensures
        EventJournal.SeqIs(rows[i], 1 + i) && EventJournal.IsDaemonRow(rows[i]) && EventJournal.IntSeq(rows[i]).Some? && HasEvent(rows[i])
        <==> IsDaemonRow(rows[i]) && IsInteger(Get(rows[i], "seq"), i + 1) && HasText(rows[i], "event")
    {
      JournalRowIff(rows[i], i + 1);
    }
  }

  /** A number equal to `n`: an integer, or a float of that value. */
  predicate IsNumber(v: Option<Json>, n: int) { IsInteger(v, n) || v == Some(JFloat(n as real)) }

  predicate AreNumberedFrom(rows: seq<Row>, first: int) {
    forall i | 0 <= i < |rows| :: IsDaemonRow(rows[i]) && IsNumber(Get(rows[i], "seq"), first + i)
  }

  lemma CountsFromIff(rows: seq<Row>, first: int)
    ensures EventJournal.CountsFrom(rows, first) <==> AreNumberedFrom(rows, first)
  {
    forall i | 0 <= i < |rows| ensures EventJournal.SeqIs(rows[i], first + i) <==> IsNumber(Get(rows[i], "seq"), first + i) {
      IntegerIff(Get(rows[i], "seq"), first + i);
    }
  }

  /** A fixture: numbered from an integer, which is 1 for an ordinary stream and at least 2 for a
      replay of events. */
  ghost predicate IsNumberedFixture(fixture: EventJournal.Fixture, rows: seq<Row>) {
    exists first: int ::
      && rows != [] && IsInteger(Get(rows[0], "seq"), first) && AreNumberedFrom(rows, first)
      && (fixture.Ordinary? ==> first == 1) && (fixture.EventReplay? ==> first >= 2)
  }

  lemma FixtureIff(fixture: EventJournal.Fixture, rows: seq<Row>)
    ensures EventJournal.IsMonotonic(fixture, rows) <==> IsNumberedFixture(fixture, rows)
  {
    if rows != [] {
      forall first ensures AsInt(Get(rows[0], "seq")) == Some(first) <==> IsInteger(Get(rows[0], "seq"), first) {
        IntegerIff(Get(rows[0], "seq"), first);
      }
      forall first ensures EventJournal.CountsFrom(rows, first) <==> AreNumberedFrom(rows, first) { CountsFromIff(rows, first); }
    }
  }

  /** The contract pack: a replay of events is numbered from an integer that is at least 2, any
      other stream from 1, be it the float 1.0. */
  ghost predicate IsNumberedPack(fixture: EventJournal.Fixture, rows: seq<Row>) {
    && rows != []
    && if fixture.EventReplay? then exists first: int :: first >= 2 && IsInteger(Get(rows[0], "seq"), first) && AreNumberedFrom(rows, first)
       else AreNumberedFrom(rows, 1)
  }

  lemma PackIff(fixture: EventJournal.Fixture, rows: seq<Row>)
    ensures EventJournal.IsPackStream(fixture, rows) <==> IsNumberedPack(fixture, rows)
  {
    if rows != [] {
      forall first ensures AsInt(Get(rows[0], "seq")) == Some(first) <==> IsInteger(Get(rows[0], "seq"), first) {
        IntegerIff(Get(rows[0], "seq"), first);
      }
      forall first ensures EventJournal.CountsFrom(rows, first) <==> AreNumberedFrom(rows, first) { CountsFromIff(rows, first); }
    }
  }

  // ----- alerts and their samples -----

  /** The number that digits read from the left make, after `n`. */
  function ReadOn(digits: string, n: nat): nat
    requires forall i | 0 <= i < |digits| :: '0' <= digits[i] <= '9'
  {
    if digits == "" then n else ReadOn(digits[1..], 10 * n + (digits[0] - '0') as nat)
  }

  /** A decimal text of a number. */
  predicate IsDecimalOf(s: string, n: int) {
    s != "" && (forall i | 0 <= i < |s| :: '0' <= s[i] <= '9') && ReadOn(s, 0) == n
  }

  lemma {:induction false} ReadOnLast(s: string, c: char, n: nat)
    requires (forall i | 0 <= i < |s| :: '0' <= s[i] <= '9') && '0' <= c <= '9'
    ensures ReadOn(s + [c], n) == 10 * ReadOn(s, n) + (c - '0') as nat
    decreases |s|
  {
    if s == "" {
      assert s + [c] == [c] && [c][1..] == "";
    } else {
      assert (s + [c])[1..] == s[1..] + [c];
      ReadOnLast(s[1..], c, 10 * n + (s[0] - '0') as nat);
    }
  }

  lemma {:induction false} ValueIsRead(s: string)
    requires forall i | 0 <= i < |s| :: '0' <= s[i] <= '9'
    ensures Chars.All(s, Chars.IsDigit) && Decimals.Value(s) == ReadOn(s, 0)
    decreases |s|
  {
    if s != "" {
      var front, c := s[..|s| - 1], s[|s| - 1];
      ValueIsRead(front);
      ReadOnLast(front, c, 0);
      assert s == front + [c];
    }
  }

  lemma DecimalIff(s: string, n: int)
    ensures IsDecimalOf(s, n) <==> Decimals.IsDecimal(s) && Decimals.Value(s) == n
  {
    if forall i | 0 <= i < |s| :: '0' <= s[i] <= '9' { ValueIsRead(s); }
    if Decimals.IsDecimal(s) { assert forall i | 0 <= i < |s| :: Chars.IsDigit(s[i]); }
  }

  /** A positive integer, or a decimal text of one. */
  predicate IsPositiveNumber(v: Option<Json>) {
    match v
    case Some(JInt(n)) => n > 0
    case Some(JBool(b)) => b
    case Some(JStr(s)) => s != "" && (forall i | 0 <= i < |s| :: '0' <= s[i] <= '9') && ReadOn(s, 0) > 0
    case _ => false
  }

  lemma PositiveIff(v: Option<Json>)
    ensures AlertOrder.IsPositive(v) <==> IsPositiveNumber(v)
  {
    if v.Some? && v.value.JStr? { DecimalIff(v.value.s, if Decimals.IsDecimal(v.value.s) then Decimals.Value(v.value.s) else 0); }
    if v.Some? && v.value.JStr? && IsPositiveNumber(v) { DecimalIff(v.value.s, ReadOn(v.value.s, 0)); }
  }

  predicate IsRejected(row: Row) { Says(row, "event", "runtime_sample") && IsPositiveNumber(Get(row, "nr_rejected")) }
  predicate IsDead(row: Row) { Says(row, "event", "runtime_sample") && Get(row, "workload_alive") == Some(JBool(false)) }

  predicate IsNotRejected(row: Row) {
    || !Says(row, "event", "runtime_sample")
    || "nr_rejected" !in row || !row["nr_rejected"].JStr? || row["nr_rejected"].s == "" || row["nr_rejected"].s == "0"
  }

  predicate IsLost(row: Row) {
    Says(row, "event", "runtime_sample") && (Get(row, "sample_sequence") == Some(JInt(7)) || Get(row, "sample_sequence") == Some(JFloat(7.0)))
  }

  /** Every row with this reason has such a sample at or before it. */
  ghost predicate IsPreceded(rows: seq<Row>, reason: string, sample: Row -> bool) {
    forall i | 0 <= i < |rows| && Says(rows[i], "reason", reason) :: exists j | 0 <= j <= i :: sample(rows[j])
  }

  lemma FollowsIff(rows: seq<Row>, reason: string, alert: Row -> bool, sample: Row -> bool, same: Row -> bool)
    requires forall row | row in rows :: alert(row) <==> Says(row, "reason", reason)
    requires forall row | row in rows :: sample(row) <==> same(row)
    ensures AlertOrder.Follows(rows, alert, sample) <==> IsPreceded(rows, reason, same)
  {
    forall i | 0 <= i < |rows| ensures AlertOrder.SeenBy(rows, i, sample) <==> exists j | 0 <= j <= i :: same(rows[j]) {
      if AlertOrder.SeenBy(rows, i, sample) {
        var j :| 0 <= j <= i && j < |rows| && sample(rows[j]);
        assert same(rows[j]);
      }
      if j :| 0 <= j <= i && same(rows[j]) { assert sample(rows[j]); }
    }
  }

  lemma AlertsFollowIff(rows: seq<Row>)
    ensures AlertOrder.AlertsFollow(rows) <==>
      IsPreceded(rows, "runtime_nr_rejected_nonzero", IsRejected) && IsPreceded(rows, "runtime_workload_dead", IsDead)
  {
    forall row | row in rows ensures AlertOrder.IsRejectedSample(row) <==> IsRejected(row) { PositiveIff(Get(row, "nr_rejected")); }
    FollowsIff(rows, AlertOrder.REJECTED, AlertOrder.IsRejectedAlert, AlertOrder.IsRejectedSample, IsRejected);
    FollowsIff(rows, AlertOrder.DEAD, AlertOrder.IsDeadAlert, AlertOrder.IsDeadSample, IsDead);
  }

  predicate IsTextCounted(row: Row) { !IsNotRejected(row) }

  /** The row names an event, and a sample was accepted. */
  predicate IsReadableRow(row: Row) {
    HasText(row, "event") && (Says(row, "event", "runtime_sample") ==> Says(row, "status", "accepted"))
  }

  lemma ReadableIff(row: Row)
    ensures AlertOrder.IsReadable(row) <==> IsReadableRow(row)
  {}

  lemma ConsumerFollowsIff(rows: seq<Row>)
    ensures AlertOrder.ConsumerFollows(rows) <==>
      && (forall i | 0 <= i < |rows| :: IsReadableRow(rows[i]))
      && IsPreceded(rows, "runtime_nr_rejected_nonzero", IsTextCounted) && IsPreceded(rows, "runtime_workload_dead", IsDead)
      && IsPreceded(rows, "runtime_sample_loss", IsLost)
  {
    forall i | 0 <= i < |rows| ensures AlertOrder.IsReadable(rows[i]) <==> IsReadableRow(rows[i]) { ReadableIff(rows[i]); }
    FollowsIff(rows, AlertOrder.REJECTED, AlertOrder.IsRejectedAlert, AlertOrder.IsNonzeroSample, IsTextCounted);
    FollowsIff(rows, AlertOrder.DEAD, AlertOrder.IsDeadAlert, AlertOrder.IsDeadSample, IsDead);
    FollowsIff(rows, AlertOrder.LOSS, AlertOrder.IsLossAlert, AlertOrder.IsLossSample, IsLost);
  }

  // ----- the contract pack's endings -----

  predicate IsUnhashable(row: Row, field: string) { field in row && (row[field].JList? || row[field].JObject?) }

  predicate IsTerminalEvent(row: Row) { Says(row, "event", "incident") || Says(row, "event", "refusal") }

  /** A row with the reason whose event, or whose status after a terminal event, no set can hold. */
  predicate CannotBeRead(row: Row, reason: string) {
    && Says(row, "reason", reason)
    && (IsUnhashable(row, "event") || (IsTerminalEvent(row) && IsUnhashable(row, "status")))
  }

  predicate EndsWith(row: Row, reason: string) {
    && Says(row, "reason", reason) && IsTerminalEvent(row) && !IsUnhashable(row, "status")
    && (Says(row, "status", "REFUSE") || Says(row, "status", "refused") || Says(row, "status", "unsafe_to_assume")
        || Says(row, "status", "INCIDENT") || Says(row, "state", "unsafe_to_assume"))
  }

  lemma TerminalReadingIff(row: Row, reason: string)
    ensures AlertOrder.Raises(row, reason) <==> CannotBeRead(row, reason)
    ensures AlertOrder.Ends(row, reason) <==> EndsWith(row, reason)
  {}

  lemma FailedProofIff(row: Row, event: string, reason: string)
    ensures AlertOrder.IsFailedProof(row, event, reason) <==>
      Says(row, "event", event) && Says(row, "status", "FAIL") && Says(row, "reason", reason)
  {}

  // ----- sched_ext rows -----

  /** The value of a fact: "" where there is no fact or no value. */
  function FactValue(row: Row, field: string): Json {
    if field in row && row[field].JObject? && "value" in row[field].fields then row[field].fields["value"] else JStr("")
  }

  /** The phase a row claims fits its state and its scheduler. */
  predicate FitsPhase(row: Row) {
    var state, ops := FactValue(row, "state"), FactValue(row, "ops");
    && !IsUnhashable(row, "sched_ext_phase")
    && (Says(row, "sched_ext_phase", "before_attach") ==> state != JStr("enabled"))
    && (Says(row, "sched_ext_phase", "after_rollback") || Says(row, "sched_ext_phase", "after_scheduler_exit")
        || Says(row, "sched_ext_phase", "after_watchdog_disable") || Says(row, "sched_ext_phase", "after_forced_disable") ==>
          && (state == JStr("disabled") || state == JStr("unknown") || state == JStr("unavailable"))
          && (state == JStr("disabled") ==> ops == JStr("none") || ops == JStr("unavailable") || ops == JStr("unknown")))
  }

  lemma PhaseIff(row: Row)
    ensures SchedExtSequence.IsPhaseSound(row) <==> FitsPhase(row)
  {
    FactTextIs(row, "state");
    FactTextIs(row, "ops");
  }

  lemma FactTextIs(row: Row, field: string)
    ensures forall s :: SchedExtSequence.FactText(row, field) == Some(s) <==> FactValue(row, field) == JStr(s)
  {}

  /** The row gives the number `n` for `enable_seq`: an integer, or a text that is its decimal with
      white space around. */
  predicate IsEnabledAt(row: Row, n: int) {
    && "enable_seq" in row && row["enable_seq"].JObject? && "value" in row["enable_seq"].fields && n >= 0
    && match row["enable_seq"].fields["value"]
       case JInt(m) => m == n
       case JStr(s) => IsDecimalOf(Decimals.Strip(s), n)
       case _ => false
  }

  lemma EnableSeqIff(row: Row, n: int)
    ensures SchedExtSequence.EnableSeqOf(row) == Some(n) <==> IsEnabledAt(row, n)
    ensures SchedExtSequence.EnableSeq(row).Some? <==>
      "enable_seq" in row && row["enable_seq"].JObject? && "value" in row["enable_seq"].fields
  {
    if n >= 0 && "enable_seq" in row && row["enable_seq"].JObject? && "value" in row["enable_seq"].fields
      && row["enable_seq"].fields["value"].JStr?
    {
      DecimalIff(Decimals.Strip(row["enable_seq"].fields["value"].s), n);
    }
  }

  /** `t` is `s` without the white space at its ends. */
  predicate IsTrimmed(s: string, left: string, t: string, right: string) {
    && s == left + t + right && Chars.All(left, Chars.IsSpace) && Chars.All(right, Chars.IsSpace)
    && (t != "" ==> !Chars.IsSpace(t[0]) && !Chars.IsSpace(t[|t| - 1]))
  }

  lemma TrimmedBehind(c: char, s: string, left: string, t: string, right: string)
    requires Chars.IsSpace(c) && IsTrimmed(s, left, t, right)
    ensures IsTrimmed([c] + s, [c] + left, t, right)
  {}

  lemma TrimmedBefore(c: char, s: string, left: string, t: string, right: string)
    requires Chars.IsSpace(c) && IsTrimmed(s, left, t, right)
    ensures IsTrimmed(s + [c], left, t, right + [c])
  {}

  /** Stripping takes the white space at both ends, and nothing else. */
  lemma {:induction false} StripIs(s: string) returns (left: string, right: string)
    ensures IsTrimmed(s, left, Decimals.Strip(s), right)
    decreases |s|
  {
    left, right := "", "";
    if s != "" {
      if Chars.IsSpace(s[0]) {
        left, right := StripIs(s[1..]);
        TrimmedBehind(s[0], s[1..], left, Decimals.Strip(s), right);
        left := [s[0]] + left;
        assert s == [s[0]] + s[1..];
      } else if Chars.IsSpace(s[|s| - 1]) {
        left, right := StripIs(s[..|s| - 1]);
        TrimmedBefore(s[|s| - 1], s[..|s| - 1], left, Decimals.Strip(s), right);
        right := right + [s[|s| - 1]];
        assert s == s[..|s| - 1] + [s[|s| - 1]];
      }
    }
  }

  predicate IsSequence(row: Row, n: int) { IsInteger(Get(row, "sequence"), n) }

  /** Any two rows that give numbers give them in order. */
  ghost predicate AreRising(rows: seq<Row>, gives: (Row, int) -> bool, strict: bool) {
    forall i, j, n, m | 0 <= i < j < |rows| && gives(rows[i], n) && gives(rows[j], m) :: n < m || (!strict && n == m)
  }

  lemma RisingIff(rows: seq<Row>, number: Row -> Option<int>, gives: (Row, int) -> bool, strict: bool)
    requires forall row, n | row in rows :: number(row) == Some(n) <==> gives(row, n)
    ensures SchedExtSequence.Monotone(rows, number, strict) <==> AreRising(rows, gives, strict)
  {
    if AreRising(rows, gives, strict) {
      forall i, j | 0 <= i < j < |rows| ensures SchedExtSequence.InOrder(number(rows[i]), number(rows[j]), strict) {
        if number(rows[i]).Some? && number(rows[j]).Some? {
          assert rows[i] in rows && rows[j] in rows;
          var n, m := number(rows[i]).value, number(rows[j]).value;
          assert number(rows[i]) == Some(n) && number(rows[j]) == Some(m);
          assert gives(rows[i], n) && gives(rows[j], m);
        }
      }
    }
    if SchedExtSequence.Monotone(rows, number, strict) {
      forall i, j, n, m | 0 <= i < j < |rows| && gives(rows[i], n) && gives(rows[j], m) ensures n < m || (!strict && n == m) {
        assert SchedExtSequence.InOrder(number(rows[i]), number(rows[j]), strict);
      }
    }
  }

  predicate IsFact(row: Row) {
    "enable_seq" in row && row["enable_seq"].JObject? && "value" in row["enable_seq"].fields
  }

  /** Each row has the fact and fits its phase, the sequence numbers that are given rise, and those
      of the scheduler do not fall. */
  ghost predicate IsOrderedStream(rows: seq<Row>) {
    && (forall i | 0 <= i < |rows| :: IsFact(rows[i]) && FitsPhase(rows[i]))
    && AreRising(rows, IsSequence, true) && AreRising(rows, IsEnabledAt, false)
  }

  lemma OrderedIff(rows: seq<Row>)
    ensures SchedExtSequence.IsOrdered(rows) <==> IsOrderedStream(rows)
  {
    forall i | 0 <= i < |rows| ensures SchedExtSequence.IsRowSound(rows[i]) <==> IsFact(rows[i]) && FitsPhase(rows[i]) {
      EnableSeqIff(rows[i], 0);
      PhaseIff(rows[i]);
    }
    forall row, n ensures SchedExtSequence.SequenceOf(row) == Some(n) <==> IsSequence(row, n) { IntegerIff(Get(row, "sequence"), n); }
    forall row, n ensures SchedExtSequence.EnableSeqOf(row) == Some(n) <==> IsEnabledAt(row, n) { EnableSeqIff(row, n); }
    RisingIff(rows, SchedExtSequence.SequenceOf, IsSequence, true);
    RisingIff(rows, SchedExtSequence.EnableSeqOf, IsEnabledAt, false);
  }
}
