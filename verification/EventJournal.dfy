/** The daemon's journal and the replays cut from it: three checks of sequence numbers
    (qa/daemon_event_contract_check.py, qa/golden_fixture_lifecycle_check.py and
    qa/frontend_contract_pack_check.py). */
module EventJournal {
  import opened Wrappers
  import opened JsonValue

  const SCHEMA := "zig-scheduler/daemon-event/v1"

  /** `row.get("seq") == n`, which True meets for 1 and a float for its whole value. */
  predicate SeqIs(row: Row, n: int) {
    match Get(row, "seq")
    case Some(JFloat(r)) => r == n as real
    case v => AsInt(v) == Some(n)
  }

  function IntSeq(row: Row): Option<int> { AsInt(Get(row, "seq")) }

  predicate IsDaemonRow(row: Row) {
    IsText(Get(row, "schema"), SCHEMA) && Get(row, "host_mutation") == Some(JBool(false))
  }

  predicate HasBool(row: Row) { Get(row, "host_mutation").Some? && row["host_mutation"].JBool? }

  /** The rows are numbered from `k`. */
  predicate CountsFrom(rows: seq<Row>, k: int) {
    forall i | 0 <= i < |rows| :: SeqIs(rows[i], k + i) && IsDaemonRow(rows[i])
  }

  // ----- the journal -----

  predicate IsLoadable(row: Row) { IntSeq(row).Some? && HasEvent(row) && HasBool(row) }

  /** What the journal check requires, of the fields kept here. */
  predicate IsJournal(rows: seq<Row>) {
    && rows != [] && CountsFrom(rows, 1)
    && forall i | 0 <= i < |rows| :: IntSeq(rows[i]).Some? && HasEvent(rows[i])
  }

  /** `load_rows` and then `validate_row` on each row do not raise. */
  method ValidateJournal(rows: seq<Row>) returns (ok: bool)
    ensures ok <==> IsJournal(rows)
  {
    for i := 0 to |rows|
      invariant forall k | 0 <= k < i :: IsLoadable(rows[k])
    {
      if !IsLoadable(rows[i]) { return false; }
    }
    if rows == [] { return false; }
    for i := 0 to |rows|
      invariant forall k | 0 <= k < i :: SeqIs(rows[k], 1 + k) && IsDaemonRow(rows[k])
    {
      if !IsText(Get(rows[i], "schema"), SCHEMA) { return false; }
      if IntSeq(rows[i]).value != i + 1 { return false; }
      if rows[i]["host_mutation"] != JBool(false) { return false; }
    }
    return true;
  }

  // ----- fixtures and replays -----

  datatype Fixture = Ordinary | EventReplay | SampleReplay

  /** What `validate_monotonic` requires of a fixture. */
  predicate IsMonotonic(fixture: Fixture, rows: seq<Row>) {
    && rows != [] && IntSeq(rows[0]).Some?
    && var first := IntSeq(rows[0]).value;
       (fixture.Ordinary? ==> first == 1) && (fixture.EventReplay? ==> first >= 2) && CountsFrom(rows, first)
  }

  /** `validate_monotonic` does not raise. */
  method ValidateMonotonic(fixture: Fixture, rows: seq<Row>) returns (ok: bool)
    ensures ok <==> IsMonotonic(fixture, rows)
  {
    if rows == [] || IntSeq(rows[0]).None? { return false; }
    var expected := IntSeq(rows[0]).value;
    if fixture.Ordinary? && expected != 1 { return false; }
    if fixture.EventReplay? && expected < 2 { return false; }
    for i := 0 to |rows|
      invariant expected == IntSeq(rows[0]).value + i && CountsFrom(rows[..i], IntSeq(rows[0]).value)
    {
      if !IsText(Get(rows[i], "schema"), SCHEMA) || !SeqIs(rows[i], expected) || Get(rows[i], "host_mutation") != Some(JBool(false)) {
        return false;
      }
      expected := expected + 1;
    }
    assert rows[..|rows|] == rows;
    return true;
  }

  /** What the contract pack's `validate_rows` requires, of the fields kept here. */
  predicate IsPackStream(fixture: Fixture, rows: seq<Row>) {
    && rows != []
    && if fixture.EventReplay? then IntSeq(rows[0]).Some? && IntSeq(rows[0]).value >= 2 && CountsFrom(rows, IntSeq(rows[0]).value)
       else CountsFrom(rows, 1)
  }

  method ValidatePackRows(fixture: Fixture, rows: seq<Row>) returns (ok: bool)
    ensures ok <==> IsPackStream(fixture, rows)
  {
    if rows == [] { return false; }
    var expected := 1;
    if fixture.EventReplay? {
      if IntSeq(rows[0]).None? { return false; }
      expected := IntSeq(rows[0]).value;
      if expected < 2 { return false; }
    }
    ghost var first := expected;
    for i := 0 to |rows|
      invariant expected == first + i && CountsFrom(rows[..i], first)
    {
      if !IsText(Get(rows[i], "schema"), SCHEMA) { return false; }
      if !SeqIs(rows[i], expected) { return false; }
      expected := expected + 1;
      if Get(rows[i], "host_mutation") != Some(JBool(false)) { return false; }
    }
    assert rows[..|rows|] == rows;
    return true;
  }

  // ----- cutting and joining -----

  lemma IntSeqIsSeq(row: Row, n: int)
    requires IntSeq(row).Some?
    ensures SeqIs(row, n) <==> IntSeq(row) == Some(n)
  {}

  lemma CountsSplit(a: seq<Row>, b: seq<Row>, k: int)
    ensures CountsFrom(a + b, k) <==> CountsFrom(a, k) && CountsFrom(b, k + |a|)
  {
    var all := a + b;
    if CountsFrom(all, k) {
      forall i | 0 <= i < |a| ensures SeqIs(a[i], k + i) && IsDaemonRow(a[i]) {
        assert all[i] == a[i];
      }
      forall i | 0 <= i < |b| ensures SeqIs(b[i], k + |a| + i) && IsDaemonRow(b[i]) {
        assert all[|a| + i] == b[i];
      }
    }
  }

  /** What is left of a journal from event k >= 2 on is a replay from k, for both checks of
      replays. */
  lemma SuffixIsReplay(rows: seq<Row>, k: nat)
    requires IsJournal(rows) && 2 <= k <= |rows|
    ensures IsMonotonic(EventReplay, rows[k - 1..]) && IsPackStream(EventReplay, rows[k - 1..])
    ensures IntSeq(rows[k - 1..][0]) == Some(k)
  {}

  /** What a replay's rows need besides, to stand in a journal. */
  predicate AreEvents(rows: seq<Row>) {
    forall i | 0 <= i < |rows| :: IntSeq(rows[i]).Some? && HasEvent(rows[i])
  }

  /** Joining a journal and a replay gives a journal iff the replay starts where the
      journal ends and its rows have integer numbers and events. */
  lemma JoinIsJournalIff(journal: seq<Row>, replay: seq<Row>)
    requires IsJournal(journal) && IsMonotonic(EventReplay, replay)
    ensures IsJournal(journal + replay) <==> IntSeq(replay[0]).value == |journal| + 1 && AreEvents(replay)
  {
    var all := journal + replay;
    CountsSplit(journal, replay, 1);
    IntSeqIsSeq(replay[0], |journal| + 1);
    if AreEvents(replay) {
      forall i | 0 <= i < |all| ensures IntSeq(all[i]).Some? && HasEvent(all[i]) {
        assert all[i] == if i < |journal| then journal[i] else replay[i - |journal|];
      }
    }
    if IsJournal(all) {
      forall i | 0 <= i < |replay| ensures IntSeq(replay[i]).Some? && HasEvent(replay[i]) {
        assert all[|journal| + i] == replay[i];
      }
    }
  }

  /** Cutting a journal and joining the parts again gives it back, as a journal. */
  lemma CutAndJoin(rows: seq<Row>, k: nat)
    requires IsJournal(rows) && 2 <= k <= |rows|
    ensures IsJournal(rows[..k - 1]) && rows[..k - 1] + rows[k - 1..] == rows
    ensures AreEvents(rows[k - 1..])
  {}

  function RowWithSeq(v: Json): Row {
    map["seq" := v, "schema" := JStr(SCHEMA), "host_mutation" := JBool(false), "event" := JStr("attach")]
  }

  /** The condition on integer numbers is needed: a replay may hold a number as a float,
      which no journal may. */
  lemma FloatReplayDoesNotJoin()
    ensures var journal, replay := [RowWithSeq(JInt(1))], [RowWithSeq(JInt(2)), RowWithSeq(JFloat(3.0))];
      && IsJournal(journal) && IsMonotonic(EventReplay, replay) && IsPackStream(EventReplay, replay)
      && IntSeq(replay[0]).value == |journal| + 1 && !IsJournal(journal + replay)
  {
    var journal, replay := [RowWithSeq(JInt(1))], [RowWithSeq(JInt(2)), RowWithSeq(JFloat(3.0))];
    assert IsDaemonRow(journal[0]) && IsDaemonRow(replay[0]) && IsDaemonRow(replay[1]);
    assert SeqIs(replay[1], 3) && IntSeq(replay[1]).None?;
    assert (journal + replay)[2] == replay[1];
  }

  // ----- the two fixture checks -----

  /** Both checks of fixtures agree on event replays; elsewhere they agree on streams whose
      first number is the integer 1, and what one accepts and the other does not is a
      stream that starts with the float 1.0, or a sample replay that starts elsewhere. */
  lemma FixtureChecksAgreeIff(fixture: Fixture, rows: seq<Row>)
    ensures (IsMonotonic(fixture, rows) <==> IsPackStream(fixture, rows)) <==>
      !(&& rows != []
        && if fixture.EventReplay? then false
           else if IntSeq(rows[0]).None? then CountsFrom(rows, 1)
           else fixture.SampleReplay? && IntSeq(rows[0]).value != 1 && CountsFrom(rows, IntSeq(rows[0]).value))
  {}

  /** Every journal is a fixture for both. */
  lemma JournalIsFixture(rows: seq<Row>)
    requires IsJournal(rows)
    ensures IsMonotonic(Ordinary, rows) && IsPackStream(Ordinary, rows)
  {}
}
