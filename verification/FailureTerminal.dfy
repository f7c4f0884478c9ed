/** Failed rollbacks and cleanups must end in an incident (qa/consumer_contract_check.py). */
module FailureTerminal {
  import opened Wrappers
  import opened JsonValue

  const TERMINAL_BAD: set<string> := {"INCIDENT", "REFUSE", "refused", "unsafe_to_assume", "FAIL", "SKIP"}
  const FAILURE_EVENTS: set<string> := {"rollback", "cleanup"}

  /** `status` and `reason`: "" for what is not a text. */
  function TextOr(row: Row, field: string): string {
    match Get(row, field) case Some(JStr(s)) => s case _ => ""
  }

  function Status(row: Row): string { TextOr(row, "status") }
  function Reason(row: Row): string { TextOr(row, "reason") }

  /** `event`, which raises on a missing, empty or non-text event. */
  function Event(row: Row): Option<string> {
    match Get(row, "event") case Some(JStr(s)) => if s == "" then None else Some(s) case _ => None
  }

  predicate IsFailure(row: Row) {
    Event(row).Some? && Event(row).value in FAILURE_EVENTS && Status(row) == "FAIL"
  }

  predicate IsTerminal(row: Row, reason: string) {
    Event(row) == Some("incident") && Reason(row) == reason && Status(row) in TERMINAL_BAD
  }

  // ----- what is required -----

  predicate EndsAfter(rows: seq<Row>, i: int, reason: string) {
    exists j :: i < j < |rows| && 0 <= j && IsTerminal(rows[j], reason)
  }

  /** Every row has an event, and every failure a reason and, strictly later, a bad
      terminal incident with that reason. */
  ghost predicate FailuresEnd(rows: seq<Row>) {
    && (forall i | 0 <= i < |rows| :: Event(rows[i]).Some?)
    && (forall i | 0 <= i < |rows| && IsFailure(rows[i]) :: Reason(rows[i]) != "" && EndsAfter(rows, i, Reason(rows[i])))
  }

  // ----- the nested scan -----

  /** `any(...)` over the later rows, which raises (`None`) at a row without an event that
      it reaches before it finds an incident. */
  method AnyTerminal(later: seq<Row>, reason: string) returns (found: Option<bool>)
    ensures found == Some(true) ==> EndsAfter(later, -1, reason)
    ensures found == Some(false) ==> !EndsAfter(later, -1, reason)
    ensures found == None ==> exists i :: 0 <= i < |later| && Event(later[i]).None?
  {
    for i := 0 to |later|
      invariant forall k | 0 <= k < i :: !IsTerminal(later[k], reason)
    {
      if Event(later[i]).None? { return None; }
      if IsTerminal(later[i], reason) { return Some(true); }
    }
    return Some(false);
  }

  /** `validate_failure_terminal` does not raise. */
  method ValidateFailureTerminal(rows: seq<Row>) returns (ok: bool)
    ensures ok <==> FailuresEnd(rows)
  {
    for i := 0 to |rows|
      invariant forall k | 0 <= k < i :: Event(rows[k]).Some?
      invariant forall k | 0 <= k < i && IsFailure(rows[k]) :: Reason(rows[k]) != "" && EndsAfter(rows, k, Reason(rows[k]))
    {
      if Event(rows[i]).None? { return false; }
      if IsFailure(rows[i]) {
        if Reason(rows[i]) == "" { return false; }
        var later := rows[i + 1..];
        var found := AnyTerminal(later, Reason(rows[i]));
        LaterRows(rows, i, Reason(rows[i]));
        if found.None? {
          var k :| 0 <= k < |later| && Event(later[k]).None?;
          assert Event(rows[i + 1 + k]).None?;
          return false;
        }
        if !found.value { return false; }
      }
    }
    return true;
  }

  lemma LaterRows(rows: seq<Row>, i: nat, reason: string)
    requires i < |rows|
    ensures EndsAfter(rows[i + 1..], -1, reason) <==> EndsAfter(rows, i, reason)
  {}

  // ----- one backward pass -----

  /** A pass from the end that keeps the reasons already ended. */
  method ValidateBackwards(rows: seq<Row>) returns (ok: bool)
    ensures ok <==> FailuresEnd(rows)
  {
    var ended: set<string> := {};
    var i := |rows|;
    while i > 0
      invariant 0 <= i <= |rows| && FailuresEnd(rows[i..])
      invariant forall reason :: reason in ended <==> EndsAfter(rows[i..], -1, reason)
    {
      i := i - 1;
      var row, later := rows[i], rows[i + 1..];
      assert rows[i..] == [row] + later;
      Prepend(row, later);
      if FailuresEnd(rows) { SuffixEnds(rows, i); }
      if Event(row).None? || (IsFailure(row) && (Reason(row) == "" || Reason(row) !in ended)) { return false; }
      if IsTerminal(row, Reason(row)) { ended := ended + {Reason(row)}; }
    }
    assert rows[0..] == rows;
    return true;
  }

  lemma Prepend(row: Row, later: seq<Row>)
    ensures forall reason :: EndsAfter([row] + later, -1, reason) <==> IsTerminal(row, reason) || EndsAfter(later, -1, reason)
    ensures FailuresEnd([row] + later) <==>
      && FailuresEnd(later) && Event(row).Some?
      && (IsFailure(row) ==> Reason(row) != "" && EndsAfter(later, -1, Reason(row)))
  {
    var rows := [row] + later;
    assert later == rows[1..];
    forall reason ensures EndsAfter(rows, -1, reason) <==> IsTerminal(row, reason) || EndsAfter(later, -1, reason) {
      LaterRows(rows, 0, reason);
      if IsTerminal(row, reason) { assert IsTerminal(rows[0], reason); }
    }
    forall i | 0 <= i < |later| ensures EndsAfter(later, i, Reason(later[i])) <==> EndsAfter(rows, i + 1, Reason(rows[i + 1])) {
      LaterRows(later, i, Reason(later[i]));
      LaterRows(rows, i + 1, Reason(rows[i + 1]));
      assert rows[i + 2..] == later[i + 1..];
    }
    LaterRows(rows, 0, Reason(row));
    if FailuresEnd(rows) {
      forall i | 0 <= i < |later|
        ensures Event(later[i]).Some? && (IsFailure(later[i]) ==> Reason(later[i]) != "" && EndsAfter(later, i, Reason(later[i])))
      {
        assert later[i] == rows[i + 1];
      }
      assert rows[0] == row;
    }
    if FailuresEnd(later) {
      forall i | 0 < i < |rows|
        ensures Event(rows[i]).Some? && (IsFailure(rows[i]) ==> Reason(rows[i]) != "" && EndsAfter(rows, i, Reason(rows[i])))
      {
        assert rows[i] == later[i - 1];
      }
    }
  }

  // ----- closure -----

  lemma {:induction false} SuffixEnds(rows: seq<Row>, n: nat)
    requires FailuresEnd(rows) && n <= |rows|
    ensures FailuresEnd(rows[n..])
    decreases n
  {}

  /** The check looks forward only: whether a stream passes depends on what comes before a
      row only through the failures there. */
  lemma JoinIffEnds(a: seq<Row>, b: seq<Row>)
    ensures FailuresEnd(a + b) <==>
      && FailuresEnd(b) && (forall i | 0 <= i < |a| :: Event(a[i]).Some?)
      && (forall i | 0 <= i < |a| && IsFailure(a[i]) ::
            Reason(a[i]) != "" && (EndsAfter(a, i, Reason(a[i])) || EndsAfter(b, -1, Reason(a[i]))))
  {
    forall i | 0 <= i < |a|
      ensures EndsAfter(a + b, i, Reason(a[i])) <==> EndsAfter(a, i, Reason(a[i])) || EndsAfter(b, -1, Reason(a[i]))
    {
      EndsInJoin(a, b, i, Reason(a[i]));
    }
    if FailuresEnd(a + b) {
      SuffixEnds(a + b, |a|);
      assert (a + b)[|a|..] == b;
      forall i | 0 <= i < |a| ensures Event(a[i]).Some? && (IsFailure(a[i]) ==> Reason(a[i]) != "" && EndsAfter(a + b, i, Reason(a[i]))) {
        assert (a + b)[i] == a[i];
      }
    }
    forall i | |a| <= i < |a + b| ensures EndsAfter(b, i - |a|, Reason(b[i - |a|])) ==> EndsAfter(a + b, i, Reason((a + b)[i])) {
      if j :| i - |a| < j < |b| && 0 <= j && IsTerminal(b[j], Reason(b[i - |a|])) {
        assert IsTerminal((a + b)[|a| + j], Reason((a + b)[i]));
      }
    }
  }

  lemma EndsInJoin(a: seq<Row>, b: seq<Row>, i: nat, reason: string)
    requires i < |a|
    ensures EndsAfter(a + b, i, reason) <==> EndsAfter(a, i, reason) || EndsAfter(b, -1, reason)
  {
    if j :| i < j < |a + b| && IsTerminal((a + b)[j], reason) {
      assert if j < |a| then IsTerminal(a[j], reason) else IsTerminal(b[j - |a|], reason);
    }
    if j :| i < j < |a| && IsTerminal(a[j], reason) {
      assert IsTerminal((a + b)[j], reason);
    }
    if j :| -1 < j < |b| && IsTerminal(b[j], reason) {
      assert IsTerminal((a + b)[|a| + j], reason);
    }
  }

  /** Streams that end their failures can be joined. */
  lemma JoinEnds(a: seq<Row>, b: seq<Row>)
    requires FailuresEnd(a) && FailuresEnd(b)
    ensures FailuresEnd(a + b)
  {
    JoinIffEnds(a, b);
  }
}
