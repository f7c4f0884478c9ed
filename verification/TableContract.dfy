/** The capability matrix against its expected contract
    (qa/backend_capability_matrix_check.py). */
module TableContract {
  import opened Chars

  datatype MatrixRow = MatrixRow(id: string, designClaim: string, obligation: string, gate: string)

  datatype Cell = DesignClaim | Obligation | Gate

  datatype Failure =
    | DuplicateRow(id: string)
    | MissingRow(id: string)
    | UnexpectedRow(id: string)
    | WrongOrder
    | CellDiffers(id: string, cell: Cell)

  function Ids(rows: seq<MatrixRow>): seq<string> {
    seq(|rows|, i requires 0 <= i < |rows| => rows[i].id)
  }

  // ----- cells -----

  predicate IsInk(c: char) { !IsSpace(c) }

  /** `text.split()`. */
  function Words(s: string): seq<string>
    decreases |s|
  {
    if s == "" then []
    else if IsSpace(s[0]) then Words(s[1..])
    else [s[..Span(s, IsInk)]] + Words(s[Span(s, IsInk)..])
  }

  function Join(words: seq<string>): string {
    if words == [] then "" else if |words| == 1 then words[0] else words[0] + " " + Join(words[1..])
  }

  function NormalizeCell(s: string): string { Join(Words(s)) }

  predicate IsWord(w: string) { w != "" && All(w, IsInk) }

  lemma {:induction false} WordsAreWords(s: string)
    ensures forall w | w in Words(s) :: IsWord(w)
    decreases |s|
  {
    if s != "" {
      if IsSpace(s[0]) { WordsAreWords(s[1..]); } else { WordsAreWords(s[Span(s, IsInk)..]); }
    }
  }

  lemma {:induction false} SpanOfWord(w: string, rest: string)
    requires All(w, IsInk) && (rest == "" || IsSpace(rest[0]))
    ensures Span(w + rest, IsInk) == |w|
  {
    if w == "" {
      assert w + rest == rest;
    } else {
      assert (w + rest)[1..] == w[1..] + rest;
      SpanOfWord(w[1..], rest);
    }
  }

  lemma {:induction false} WordsOfJoin(words: seq<string>)
    requires forall w | w in words :: IsWord(w)
    ensures Words(Join(words)) == words
  {
    if words != [] {
      var w := words[0];
      assert w in words && words == [w] + words[1..];
      if |words| == 1 {
        SpanOfWord(w, "");
        assert w + "" == w && w[..|w|] == w && w[|w|..] == "";
      } else {
        var rest := " " + Join(words[1..]);
        WordsOfJoin(words[1..]);
        SpanOfWord(w, rest);
        assert Join(words) == w + rest;
        assert (w + rest)[..|w|] == w && (w + rest)[|w|..] == rest;
        assert rest[1..] == Join(words[1..]);
      }
    }
  }

  /** Cells agree once normalised iff they have the same words in the same order. */
  lemma NormalizedIffSameWords(a: string, b: string)
    ensures NormalizeCell(a) == NormalizeCell(b) <==> Words(a) == Words(b)
    ensures NormalizeCell(NormalizeCell(a)) == NormalizeCell(a)
  {
    WordsAreWords(a);
    WordsAreWords(b);
    WordsOfJoin(Words(a));
    WordsOfJoin(Words(b));
  }

  lemma {:induction false} SpanStops(a: string, rest: string)
    requires rest != "" && IsSpace(rest[0])
    ensures Span(a + rest, IsInk) == Span(a, IsInk)
    decreases |a|
  {
    if a == "" {
      assert a + rest == rest;
    } else {
      assert (a + rest)[1..] == a[1..] + rest;
      SpanStops(a[1..], rest);
    }
  }

  /** What separates words: spaces, tabs, line breaks of any kind, and the four separators. */
  predicate Separates(c: char) {
    c == ' ' || c == '\t' || c == '\n' || c == '\U{b}' || c == '\U{c}' || c == '\r'
    || c == '\U{1c}' || c == '\U{1d}' || c == '\U{1e}' || c == '\U{1f}'
  }

  lemma SeparatorsAreSpaces(c: char)
    ensures Separates(c) <==> IsSpace(c)
  {}

  lemma WordsOfSpace(s: string)
    requires s != "" && IsSpace(s[0])
    ensures Words(s) == Words(s[1..])
  {}

  lemma WordsOfInk(s: string, n: nat)
    requires s != "" && !IsSpace(s[0]) && n == Span(s, IsInk)
    ensures 0 < n <= |s| && Words(s) == [s[..n]] + Words(s[n..])
  {}

  lemma {:induction false} WordsAroundSpace(a: string, c: char, b: string)
    requires IsSpace(c)
    ensures Words(a + ([c] + b)) == Words(a) + Words(b)
    decreases |a|
  {
    var rest := [c] + b;
    var s := a + rest;
    if a == "" {
      assert s == rest && rest[1..] == b;
      WordsOfSpace(rest);
    } else if IsSpace(a[0]) {
      assert s[1..] == a[1..] + rest;
      WordsAroundSpace(a[1..], c, b);
      WordsOfSpace(s);
      WordsOfSpace(a);
    } else {
      var n := Span(a, IsInk);
      SpanStops(a, rest);
      WordsOfInk(a, n);
      WordsOfInk(s, n);
      WordsAroundSpace(a[n..], c, b);
      assert s[..n] == a[..n] && s[n..] == a[n..] + rest;
    }
  }

  /** The words of a text: those before a separator and those after it; a text without separators
      is one word, unless it is empty. */
  lemma WordsAreCut(a: string, c: char, b: string)
    requires Separates(c)
    ensures Words(a + ([c] + b)) == Words(a) + Words(b)
  {
    SeparatorsAreSpaces(c);
    WordsAroundSpace(a, c, b);
  }

  lemma WholeWord(w: string)
    requires forall i | 0 <= i < |w| :: !Separates(w[i])
    ensures Words(w) == if w == "" then [] else [w]
  {
    forall i | 0 <= i < |w| ensures IsInk(w[i]) { SeparatorsAreSpaces(w[i]); }
    SpanAll(w, IsInk);
    assert w[..|w|] == w && w[|w|..] == "";
  }

  // ----- duplicates -----

  function Count(ids: seq<string>, id: string): nat {
    if ids == [] then 0 else Count(ids[..|ids| - 1], id) + if ids[|ids| - 1] == id then 1 else 0
  }

  /** The ids that occur again, each where it occurs for the second time. */
  function SecondOccurrences(ids: seq<string>): seq<string> {
    if ids == [] then []
    else
      var front, last := ids[..|ids| - 1], ids[|ids| - 1];
      SecondOccurrences(front) + if Count(front, last) == 1 then [last] else []
  }

  lemma {:induction false} CountIsPresence(ids: seq<string>, id: string)
    ensures Count(ids, id) > 0 <==> id in ids
    decreases |ids|
  {
    if ids != [] {
      CountIsPresence(ids[..|ids| - 1], id);
      assert ids == ids[..|ids| - 1] + [ids[|ids| - 1]];
    }
  }

  predicate AreDistinct(ids: seq<string>) {
    forall i, j | 0 <= i < j < |ids| :: ids[i] != ids[j]
  }

  /** Each repeated id is listed, no other is, and none twice. */
  lemma {:induction false} SecondOccurrencesAreRepeated(ids: seq<string>, id: string)
    ensures id in SecondOccurrences(ids) <==> Count(ids, id) >= 2
    ensures Count(SecondOccurrences(ids), id) <= 1
    decreases |ids|
  {
    if ids != [] {
      var front, last := ids[..|ids| - 1], ids[|ids| - 1];
      SecondOccurrencesAreRepeated(front, id);
      if Count(front, last) == 1 {
        var longer := SecondOccurrences(front) + [last];
        assert longer[..|longer| - 1] == SecondOccurrences(front);
        CountIsPresence(SecondOccurrences(front), id);
      } else {
        assert SecondOccurrences(ids) == SecondOccurrences(front);
      }
    }
  }

  lemma DistinctStep(front: seq<string>, last: string)
    ensures AreDistinct(front + [last]) <==> AreDistinct(front) && last !in front
  {
    var ids := front + [last];
    if AreDistinct(ids) {
      forall i | 0 <= i < |front| ensures front[i] != last { assert ids[i] != ids[|front|]; }
      forall i, j | 0 <= i < j < |front| ensures front[i] != front[j] { assert ids[i] != ids[j]; }
    }
  }

  /** Nothing is listed iff nothing is repeated. */
  lemma {:induction false} NoneRepeatedIffDistinct(ids: seq<string>)
    ensures SecondOccurrences(ids) == [] <==> AreDistinct(ids)
    decreases |ids|
  {
    if ids != [] {
      var front, last := ids[..|ids| - 1], ids[|ids| - 1];
      assert ids == front + [last];
      NoneRepeatedIffDistinct(front);
      DistinctStep(front, last);
      CountIsPresence(front, last);
      SecondOccurrencesAreRepeated(front, last);
    }
  }

  method CollectDuplicateIds(ids: seq<string>) returns (duplicates: seq<string>)
    ensures duplicates == SecondOccurrences(ids)
  {
    var seen: set<string> := {};
    duplicates := [];
    for i := 0 to |ids|
      invariant forall id :: id in seen <==> id in ids[..i]
      invariant duplicates == SecondOccurrences(ids[..i])
    {
      var id := ids[i];
      assert ids[..i + 1][..i] == ids[..i] && ids[..i + 1] == ids[..i] + [id];
      CountIsPresence(ids[..i], id);
      SecondOccurrencesAreRepeated(ids[..i], id);
      if id in seen && id !in duplicates { duplicates := duplicates + [id]; }
      seen := seen + {id};
    }
    assert ids[..|ids|] == ids;
  }

  // ----- first row of each id -----

  /** Row `i` is the first with its id. */
  predicate IsFirst(rows: seq<MatrixRow>, i: nat) {
    i < |rows| && forall k | 0 <= k < i :: rows[k].id != rows[i].id
  }

  ghost predicate IsFirstRow(rows: seq<MatrixRow>, row: MatrixRow, id: string) {
    exists i: nat :: IsFirst(rows, i) && rows[i] == row && row.id == id
  }

  ghost predicate IsFirstRows(rows: seq<MatrixRow>, byId: map<string, MatrixRow>) {
    && (forall i | 0 <= i < |rows| :: rows[i].id in byId)
    && (forall id | id in byId :: IsFirstRow(rows, byId[id], id))
  }

  lemma FirstRowStays(rows: seq<MatrixRow>, n: nat, row: MatrixRow, id: string)
    requires n < |rows| && IsFirstRow(rows[..n], row, id)
    ensures IsFirstRow(rows[..n + 1], row, id)
  {
    var k: nat :| IsFirst(rows[..n], k) && rows[..n][k] == row && row.id == id;
    assert IsFirst(rows[..n + 1], k) && rows[..n + 1][k] == row;
  }

  lemma NewIdIsFirst(rows: seq<MatrixRow>, n: nat)
    requires n < |rows| && forall i | 0 <= i < n :: rows[i].id != rows[n].id
    ensures IsFirstRow(rows[..n + 1], rows[n], rows[n].id)
  {}

  method FirstRowsById(rows: seq<MatrixRow>) returns (byId: map<string, MatrixRow>)
    ensures IsFirstRows(rows, byId)
  {
    byId := map[];
    for i := 0 to |rows|
      invariant forall k | 0 <= k < i :: rows[k].id in byId
      invariant forall id | id in byId :: IsFirstRow(rows[..i], byId[id], id)
    {
      forall id | id in byId ensures IsFirstRow(rows[..i + 1], byId[id], id) {
        FirstRowStays(rows, i, byId[id], id);
      }
      if rows[i].id !in byId {
        NewIdIsFirst(rows, i);
        byId := byId[rows[i].id := rows[i]];
      }
    }
    assert rows[..|rows|] == rows;
  }

  // ----- the contract -----

  function CellOf(row: MatrixRow, cell: Cell): string {
    match cell case DesignClaim => row.designClaim case Obligation => row.obligation case Gate => row.gate
  }

  predicate Differs(actual: MatrixRow, expected: MatrixRow, cell: Cell) {
    Words(CellOf(actual, cell)) != Words(CellOf(expected, cell))
  }

  /** Row for row: the same ids, none repeated, and cells of the same words. */
  ghost predicate Meets(rows: seq<MatrixRow>, expected: seq<MatrixRow>) {
    && |rows| == |expected| && AreDistinct(Ids(rows))
    && (forall i | 0 <= i < |rows| :: rows[i].id == expected[i].id)
    && (forall i, cell | 0 <= i < |rows| :: !Differs(rows[i], expected[i], cell))
  }

  /** The failures there are to report. */
  ghost predicate Fails(rows: seq<MatrixRow>, expected: seq<MatrixRow>, failure: Failure) {
    match failure
    case DuplicateRow(id) => Count(Ids(rows), id) >= 2
    case MissingRow(id) => id in Ids(expected) && id !in Ids(rows)
    case UnexpectedRow(id) => id in Ids(rows) && id !in Ids(expected)
    case WrongOrder => Ids(rows) != Ids(expected)
    case CellDiffers(id, cell) => CellFails(rows, expected, id, cell)
  }

  /** An expected row's cell differs from that of the first row with its id. */
  ghost predicate CellFails(rows: seq<MatrixRow>, expected: seq<MatrixRow>, id: string, cell: Cell) {
    exists row, want :: want in expected && want.id == id && IsFirstRow(rows, row, id) && Differs(row, want, cell)
  }

  const CELLS := [DesignClaim, Obligation, Gate]

  lemma EveryCell(cell: Cell)
    ensures cell in CELLS
  {}

  method ValidateRowCells(actual: MatrixRow, expected: MatrixRow) returns (failures: seq<Failure>)
    ensures forall failure :: failure in failures <==>
      failure.CellDiffers? && failure.id == actual.id && Differs(actual, expected, failure.cell)
    ensures CellDiffers(actual.id, DesignClaim) in failures <==> Words(actual.designClaim) != Words(expected.designClaim)
    ensures CellDiffers(actual.id, Obligation) in failures <==> Words(actual.obligation) != Words(expected.obligation)
    ensures CellDiffers(actual.id, Gate) in failures <==> Words(actual.gate) != Words(expected.gate)
  {
    failures := [];
    for i := 0 to |CELLS|
      invariant forall failure :: failure in failures <==>
        failure.CellDiffers? && failure.id == actual.id && failure.cell in CELLS[..i] && Differs(actual, expected, failure.cell)
    {
      assert CELLS[..i + 1] == CELLS[..i] + [CELLS[i]];
      NormalizedIffSameWords(CellOf(actual, CELLS[i]), CellOf(expected, CELLS[i]));
      if NormalizeCell(CellOf(actual, CELLS[i])) != NormalizeCell(CellOf(expected, CELLS[i])) {
        failures := failures + [CellDiffers(actual.id, CELLS[i])];
      }
    }
    assert CELLS[..|CELLS|] == CELLS;
    forall cell: Cell ensures cell in CELLS { EveryCell(cell); }
  }

  /** The failures of the cells, each expected row being compared with the first that has
      its id, if any has. */
  method ValidateCells(rows: seq<MatrixRow>, expected: seq<MatrixRow>) returns (failures: seq<Failure>)
    ensures forall failure :: failure in failures <==> failure.CellDiffers? && Fails(rows, expected, failure)
  {
    var byId := FirstRowsById(rows);
    failures := [];
    for i := 0 to |expected|
      invariant forall failure :: failure in failures <==> failure.CellDiffers? && Fails(rows, expected[..i], failure)
    {
      ghost var more := expected[..i + 1];
      assert more == expected[..i] + [expected[i]];
      var id := expected[i].id;
      if id in byId {
        var differing := ValidateRowCells(byId[id], expected[i]);
        failures := failures + differing;
      }
      forall other, cell
        ensures CellFails(rows, more, other, cell) <==>
          CellFails(rows, expected[..i], other, cell) || (other == id && id in byId && Differs(byId[id], expected[i], cell))
      {
        CellFailsMore(rows, expected[..i], expected[i], byId, other, cell);
      }
    }
    assert expected[..|expected|] == expected;
  }

  lemma CellFailsMore(rows: seq<MatrixRow>, expected: seq<MatrixRow>, want: MatrixRow, byId: map<string, MatrixRow>, id: string, cell: Cell)
    requires IsFirstRows(rows, byId)
    ensures CellFails(rows, expected + [want], id, cell) <==>
      CellFails(rows, expected, id, cell) || (id == want.id && id in byId && Differs(byId[id], want, cell))
  {}

  /** The ids of `ids` that are not in `known`, in order. */
  method Absent(ids: seq<string>, known: seq<string>) returns (absent: seq<string>)
    ensures forall id :: id in absent <==> id in ids && id !in known
  {
    absent := [];
    for i := 0 to |ids|
      invariant forall id :: id in absent <==> id in ids[..i] && id !in known
    {
      assert ids[..i + 1] == ids[..i] + [ids[i]];
      if ids[i] !in known { absent := absent + [ids[i]]; }
    }
    assert ids[..|ids|] == ids;
  }

  function Each(ids: seq<string>, failure: string -> Failure): (failures: seq<Failure>)
    ensures forall f :: f in failures <==> exists id | id in ids :: f == failure(id)
  {
    if ids == [] then [] else [failure(ids[0])] + Each(ids[1..], failure)
  }

  /** Sets, a list of duplicates and a table of first rows together decide agreement row for
      row; what is reported is exactly what fails. */
  method ValidateContract(rows: seq<MatrixRow>, expected: seq<MatrixRow>) returns (failures: seq<Failure>)
    ensures forall failure :: failure in failures <==> Fails(rows, expected, failure)
    ensures failures == [] <==> Meets(rows, expected)
  {
    var actualIds, expectedIds := Ids(rows), Ids(expected);
    var duplicates := CollectDuplicateIds(actualIds);
    failures := Each(duplicates, id => DuplicateRow(id));
    forall id ensures id in duplicates <==> Count(actualIds, id) >= 2 {
      SecondOccurrencesAreRepeated(actualIds, id);
    }
    assert forall f :: f in failures <==> f.DuplicateRow? && Fails(rows, expected, f);
    var missing := Absent(expectedIds, actualIds);
    failures := failures + Each(missing, id => MissingRow(id));
    assert forall f :: f in failures <==> (f.DuplicateRow? || f.MissingRow?) && Fails(rows, expected, f);
    var unexpected := Absent(actualIds, expectedIds);
    failures := failures + Each(unexpected, id => UnexpectedRow(id));
    assert forall f :: f in failures <==> !f.WrongOrder? && !f.CellDiffers? && Fails(rows, expected, f);
    if actualIds != expectedIds { failures := failures + [WrongOrder]; }
    var cells := ValidateCells(rows, expected);
    failures := failures + cells;
    NothingFailsIffMeets(rows, expected);
    NothingIn(failures);
  }

  lemma NothingIn<T>(s: seq<T>)
    ensures s == [] <==> forall x :: x !in s
  {
    if s != [] { assert s[0] in s; }
  }

  /** Meeting the contract is agreeing row for row: same ids, none repeated, and the same words in
      each of the three cells. */
  lemma MeetsIff(rows: seq<MatrixRow>, expected: seq<MatrixRow>)
    ensures Meets(rows, expected) <==>
      && |rows| == |expected| && (forall i, j | 0 <= i < j < |rows| :: rows[i].id != rows[j].id)
      && forall i | 0 <= i < |rows| ::
           && rows[i].id == expected[i].id && Words(rows[i].designClaim) == Words(expected[i].designClaim)
           && Words(rows[i].obligation) == Words(expected[i].obligation) && Words(rows[i].gate) == Words(expected[i].gate)
  {
    assert AreDistinct(Ids(rows)) <==> forall i, j | 0 <= i < j < |rows| :: rows[i].id != rows[j].id by {
      if AreDistinct(Ids(rows)) {
        forall i, j | 0 <= i < j < |rows| ensures rows[i].id != rows[j].id { assert Ids(rows)[i] != Ids(rows)[j]; }
      }
    }
    if Meets(rows, expected) {
      forall i | 0 <= i < |rows|
        ensures Words(rows[i].designClaim) == Words(expected[i].designClaim)
        ensures Words(rows[i].obligation) == Words(expected[i].obligation) && Words(rows[i].gate) == Words(expected[i].gate)
      {
        assert !Differs(rows[i], expected[i], DesignClaim);
        assert !Differs(rows[i], expected[i], Obligation);
        assert !Differs(rows[i], expected[i], Gate);
      }
    }
  }

  /** Nothing fails iff the rows meet the contract. */
  lemma NothingFailsIffMeets(rows: seq<MatrixRow>, expected: seq<MatrixRow>)
    ensures (forall failure :: !Fails(rows, expected, failure)) <==> Meets(rows, expected)
  {
    if forall failure :: !Fails(rows, expected, failure) {
      assert !Fails(rows, expected, WrongOrder);
      SameIds(rows, expected);
      DistinctUnlessDuplicate(rows, expected);
      forall i, cell | 0 <= i < |rows| ensures !Differs(rows[i], expected[i], cell) {
        assert !Fails(rows, expected, CellDiffers(rows[i].id, cell));
        DistinctIsFirst(rows, i);
        assert expected[i] in expected;
      }
    }
    if Meets(rows, expected) {
      forall failure ensures !Fails(rows, expected, failure) { NoFailure(rows, expected, failure); }
    }
  }

  lemma NoFailure(rows: seq<MatrixRow>, expected: seq<MatrixRow>, failure: Failure)
    requires Meets(rows, expected)
    ensures !Fails(rows, expected, failure)
  {
    SameIds(rows, expected);
    match failure
    case DuplicateRow(id) =>
      NoneRepeatedIffDistinct(Ids(rows));
      SecondOccurrencesAreRepeated(Ids(rows), id);
    case CellDiffers(id, cell) =>
      forall row, want | want in expected && want.id == id && IsFirstRow(rows, row, id) ensures !Differs(row, want, cell) {
        NoCellDiffers(rows, expected, row, want, cell);
      }
    case _ =>
  }

  lemma NoCellDiffers(rows: seq<MatrixRow>, expected: seq<MatrixRow>, row: MatrixRow, want: MatrixRow, cell: Cell)
    requires Meets(rows, expected) && want in expected && IsFirstRow(rows, row, want.id)
    ensures !Differs(row, want, cell)
  {
    var i: nat :| i < |expected| && expected[i] == want;
    var k: nat :| IsFirst(rows, k) && rows[k] == row && row.id == want.id;
    SameIdSameRow(rows, i, k);
  }

  lemma SameIdSameRow(rows: seq<MatrixRow>, i: nat, k: nat)
    requires AreDistinct(Ids(rows)) && i < |rows| && k < |rows| && rows[i].id == rows[k].id
    ensures i == k
  {
    assert Ids(rows)[i] == Ids(rows)[k];
  }

  lemma SameIds(rows: seq<MatrixRow>, expected: seq<MatrixRow>)
    ensures Ids(rows) == Ids(expected) <==>
      |rows| == |expected| && forall i | 0 <= i < |rows| :: rows[i].id == expected[i].id
  {
    if Ids(rows) == Ids(expected) {
      assert |rows| == |Ids(rows)| == |Ids(expected)| == |expected|;
      forall i | 0 <= i < |rows| ensures rows[i].id == expected[i].id {
        assert Ids(rows)[i] == Ids(expected)[i];
      }
    }
  }

  lemma DistinctUnlessDuplicate(rows: seq<MatrixRow>, expected: seq<MatrixRow>)
    requires forall failure :: !Fails(rows, expected, failure)
    ensures AreDistinct(Ids(rows))
  {
    var ids := Ids(rows);
    if SecondOccurrences(ids) != [] {
      var id := SecondOccurrences(ids)[0];
      SecondOccurrencesAreRepeated(ids, id);
      assert Fails(rows, expected, DuplicateRow(id));
    }
    NoneRepeatedIffDistinct(ids);
  }

  lemma DistinctIsFirst(rows: seq<MatrixRow>, i: nat)
    requires i < |rows| && AreDistinct(Ids(rows))
    ensures IsFirstRow(rows, rows[i], rows[i].id)
  {
    forall k | 0 <= k < i ensures rows[k].id != rows[i].id {
      assert Ids(rows)[k] != Ids(rows)[i];
    }
    assert IsFirst(rows, i);
  }
}
