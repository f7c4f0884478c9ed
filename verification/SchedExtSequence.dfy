/** The order of sched_ext samples in a runtime stream (qa/runtime_sample_sched_ext.py). */
module SchedExtSequence {
  import opened Wrappers
  import opened JsonValue
  import Decimals

  // ----- one row -----

  function SequenceOf(row: Row): Option<int> { AsInt(Get(row, "sequence")) }

  /** `numeric_fact_value` of `enable_seq`: `None` when it raises, else the number if the
      value's text is one. */
  function EnableSeq(row: Row): Option<Option<int>> {
    match Get(row, "enable_seq")
    case Some(JObject(fact)) =>
      (match Get(fact, "value")
       case None => None
       case Some(JStr(s)) => Some(Decimals.Parse(Decimals.Strip(s)))
       case Some(JInt(n)) => Some(if n >= 0 then Some(n) else None)
       case Some(_) => Some(None))
    case _ => None
  }

  function EnableSeqOf(row: Row): Option<int> {
    if EnableSeq(row).Some? then EnableSeq(row).value else None
  }

  /** The text of a fact's value, `None` standing for the rendering of a value that is not
      a text, which equals none of the words below. */
  function FactText(row: Row, field: string): Option<string> {
    match Get(row, field)
    case Some(JObject(fact)) =>
      (match Get(fact, "value")
       case None => Some("")
       case Some(JStr(s)) => Some(s)
       case Some(_) => None)
    case _ => Some("")
  }

  const DETACHED_PHASES: set<string> := {
    "after_rollback", "after_scheduler_exit", "after_watchdog_disable", "after_forced_disable"}
  const QUIET_STATES: set<Option<string>> := {Some("disabled"), Some("unknown"), Some("unavailable")}
  const QUIET_OPS: set<Option<string>> := {Some("none"), Some("unavailable"), Some("unknown")}

  /** The rules on the phase a row claims; an unhashable phase raises. */
  predicate IsPhaseSound(row: Row) {
    var state, ops := FactText(row, "state"), FactText(row, "ops");
    match Get(row, "sched_ext_phase")
    case Some(JStr(phase)) =>
      && !(phase == "before_attach" && state == Some("enabled"))
      && (phase in DETACHED_PHASES ==> state in QUIET_STATES && (state == Some("disabled") ==> ops in QUIET_OPS))
    case Some(JList(_)) => false
    case Some(JObject(_)) => false
    case _ => true
  }

  predicate IsRowSound(row: Row) { EnableSeq(row).Some? && IsPhaseSound(row) }

  // ----- a stream -----

  predicate InOrder(earlier: Option<int>, later: Option<int>, strict: bool) {
    earlier.Some? && later.Some? ==> earlier.value < later.value || (!strict && earlier.value == later.value)
  }

  /** Every two rows of a stream that give a number give them in order. */
  ghost predicate Monotone(rows: seq<Row>, number: Row -> Option<int>, strict: bool) {
    forall i, j | 0 <= i < j < |rows| :: InOrder(number(rows[i]), number(rows[j]), strict)
  }

  ghost predicate IsOrdered(rows: seq<Row>) {
    && (forall i | 0 <= i < |rows| :: IsRowSound(rows[i]))
    && Monotone(rows, SequenceOf, true) && Monotone(rows, EnableSeqOf, false)
  }

  /** The last number a stream gives: all that the monitor remembers of it. */
  function Last(rows: seq<Row>, number: Row -> Option<int>): Option<int> {
    if rows == [] then None
    else if number(rows[|rows| - 1]).Some? then number(rows[|rows| - 1])
    else Last(rows[..|rows| - 1], number)
  }

  lemma {:induction false} LastBounds(rows: seq<Row>, number: Row -> Option<int>, strict: bool)
    requires Monotone(rows, number, strict)
    ensures forall i | 0 <= i < |rows| && number(rows[i]).Some? ::
      Last(rows, number).Some? && number(rows[i]).value <= Last(rows, number).value
    ensures Last(rows, number).Some? ==> exists i :: 0 <= i < |rows| && number(rows[i]) == Last(rows, number)
    decreases |rows|
  {
    if rows != [] {
      var n := |rows| - 1;
      LastBounds(rows[..n], number, strict);
      if number(rows[n]).None? && Last(rows, number).Some? {
        var i :| 0 <= i < n && number(rows[..n][i]) == Last(rows[..n], number);
        assert number(rows[i]) == Last(rows, number);
      }
    }
  }

  /** Remembering the last number is enough to compare a new one with all earlier ones. */
  lemma LastSuffices(rows: seq<Row>, row: Row, number: Row -> Option<int>, strict: bool)
    requires Monotone(rows, number, strict)
    ensures Monotone(rows + [row], number, strict) <==> InOrder(Last(rows, number), number(row), strict)
  {
    LastBounds(rows, number, strict);
    var all := rows + [row];
    if Monotone(all, number, strict) && Last(rows, number).Some? {
      var i :| 0 <= i < |rows| && number(rows[i]) == Last(rows, number);
      assert InOrder(number(all[i]), number(all[|rows|]), strict);
    }
  }

  lemma OrderedPrefix(rows: seq<Row>, i: nat)
    requires i <= |rows| && IsOrdered(rows)
    ensures IsOrdered(rows[..i])
  {}

  /** `validate_sched_ext_sequence` does not raise: one pass that keeps two numbers decides
      an order between all pairs of rows. */
  method ValidateSchedExtSequence(rows: seq<Row>) returns (ok: bool)
    ensures ok <==> IsOrdered(rows)
  {
    var lastSequence: Option<int>, lastEnableSeq: Option<int> := None, None;
    for i := 0 to |rows|
      invariant IsOrdered(rows[..i])
      invariant lastSequence == Last(rows[..i], SequenceOf) && lastEnableSeq == Last(rows[..i], EnableSeqOf)
    {
      var row := rows[i];
      assert rows[..i + 1] == rows[..i] + [row];
      assert rows[..i + 1][..i] == rows[..i];
      LastSuffices(rows[..i], row, SequenceOf, true);
      LastSuffices(rows[..i], row, EnableSeqOf, false);
      if IsOrdered(rows) { OrderedPrefix(rows, i + 1); }
      var sequence := SequenceOf(row);
      if sequence.Some? {
        if lastSequence.Some? && sequence.value <= lastSequence.value { return false; }
        lastSequence := sequence;
      }
      if EnableSeq(row).None? {
        assert !IsRowSound(rows[i]);
        return false;
      }
      var enableSeq := EnableSeq(row).value;
      if enableSeq.Some? {
        if lastEnableSeq.Some? && enableSeq.value < lastEnableSeq.value { return false; }
        lastEnableSeq := enableSeq;
      }
      if !IsPhaseSound(row) {
        assert !IsRowSound(rows[i]);
        return false;
      }
    }
    assert rows[..|rows|] == rows;
    return true;
  }

  // ----- what the order gives -----

  predicate IsSelection(indices: seq<nat>, n: nat) {
    && (forall k | 0 <= k < |indices| :: indices[k] < n)
    && (forall k, l | 0 <= k < l < |indices| :: indices[k] < indices[l])
  }

  function Select(rows: seq<Row>, indices: seq<nat>): seq<Row>
    requires IsSelection(indices, |rows|)
  {
    seq(|indices|, k requires 0 <= k < |indices| => rows[indices[k]])
  }

  /** An accepted stream stays accepted when any rows are dropped. */
  lemma DroppingRowsKeepsOrder(rows: seq<Row>, indices: seq<nat>)
    requires IsOrdered(rows) && IsSelection(indices, |rows|)
    ensures IsOrdered(Select(rows, indices))
  {}

  /** Two rows are enough to show any fault: a stream is accepted iff every stream of at
      most two of its rows is. */
  lemma OrderIsPairwise(rows: seq<Row>)
    ensures IsOrdered(rows) <==>
      forall indices: seq<nat> | IsSelection(indices, |rows|) && |indices| <= 2 :: IsOrdered(Select(rows, indices))
  {
    if IsOrdered(rows) {
      forall indices: seq<nat> | IsSelection(indices, |rows|) && |indices| <= 2 ensures IsOrdered(Select(rows, indices)) {
        DroppingRowsKeepsOrder(rows, indices);
      }
    } else if i :| 0 <= i < |rows| && !IsRowSound(rows[i]) {
      var indices: seq<nat> := [i];
      assert Select(rows, indices)[0] == rows[i];
      assert !IsOrdered(Select(rows, indices));
    } else {
      var i, j :| 0 <= i < j < |rows|
        && !(InOrder(SequenceOf(rows[i]), SequenceOf(rows[j]), true) && InOrder(EnableSeqOf(rows[i]), EnableSeqOf(rows[j]), false));
      var indices: seq<nat> := [i, j];
      var kept := Select(rows, indices);
      assert kept[0] == rows[i] && kept[1] == rows[j];
      assert !IsOrdered(kept);
    }
  }

  /** In an accepted stream a row may be repeated only if it carries no sequence number. */
  lemma NumberedRowsAreDistinct(rows: seq<Row>, i: nat, j: nat)
    requires IsOrdered(rows) && i < j < |rows| && SequenceOf(rows[i]).Some?
    ensures rows[i] != rows[j]
  {}
}
