/** Which counters an event text gives, told by where they stand in it: reading from left to right
    without overlap misses none. */
module CounterText {
  import opened Wrappers
  import opened Chars
  import opened EventCounters
  import Decimals

  /** The text starts with a counter: its name, a colon or an equals sign, white space up to `k`, and
      digits up to `end`. */
  predicate IsCounter(s: string, name: string, k: nat, end: nat) {
    && |name| + 1 <= k < end <= |s| && s[..|name|] == name && (s[|name|] == ':' || s[|name|] == '=')
    && (forall i | |name| < i < k :: IsSpace(s[i])) && (forall i | k <= i < end :: IsDigit(s[i]))
    && (end < |s| ==> !IsDigit(s[end]))
  }

  /** The five names of the expression. */
  predicate IsName(name: string) {
    name == "nr_rejected" || name == "dispatch_failed" || name == "fallbacks" || name == "fallback" || name == "fatal"
  }

  lemma NamesAre(name: string)
    ensures name in NAMES <==> IsName(name)
  {
    assert NAMES == ["nr_rejected", "dispatch_failed", "fallbacks", "fallback", "fatal"];
  }

  lemma SpanIs(s: string, p: char -> bool, n: nat)
    requires n <= |s| && (forall i | 0 <= i < n :: p(s[i])) && (n < |s| ==> !p(s[n]))
    ensures Span(s, p) == n
  {
    var m := Span(s, p);
    assert forall i | 0 <= i < m :: s[i] == s[..m][i];
  }

  /** From `from` up to `to`, and no further. */
  predicate IsRun(s: string, p: char -> bool, from: nat, to: nat) {
    from <= to <= |s| && (forall i | from <= i < to :: p(s[i])) && (to < |s| ==> !p(s[to]))
  }

  lemma SpanIff(s: string, p: char -> bool, from: nat, to: nat)
    requires from <= |s|
    ensures from + Span(s[from..], p) == to <==> IsRun(s, p, from, to)
  {
    var rest := s[from..];
    var n := Span(rest, p);
    assert forall i | from <= i < from + n :: s[i] == rest[..n][i - from];
    if IsRun(s, p, from, to) {
      assert forall i | 0 <= i < to - from :: rest[i] == s[from + i];
      SpanIs(rest, p, to - from);
    }
  }

  /** A colon or an equals sign, white space up to `k`, and digits up to `end`. */
  predicate IsAssigned(s: string, k: nat, end: nat) {
    && s != "" && (s[0] == ':' || s[0] == '=') && k < end
    && IsRun(s, IsSpace, 1, k) && IsRun(s, IsDigit, k, end)
  }

  lemma AssignedIff(s: string, k: nat, end: nat)
    ensures Assigned(s) == Some((k, end)) <==> IsAssigned(s, k, end)
  {
    if s != "" {
      SpanIff(s, IsSpace, 1, k);
      if k <= |s| { SpanIff(s, IsDigit, k, end); }
    }
  }

  lemma CounterIsAssigned(s: string, name: string, k: nat, end: nat)
    ensures IsCounter(s, name, k, end) <==>
      name <= s && |name| <= k && |name| <= end && IsAssigned(s[|name|..], k - |name|, end - |name|)
  {
    if name <= s && |name| + 1 <= k < end <= |s| {
      var rest, n := s[|name|..], |name|;
      assert forall i | 0 <= i < |rest| :: rest[i] == s[n + i];
      if IsAssigned(rest, k - n, end - n) {
        forall i | n < i < k ensures IsSpace(s[i]) { assert IsSpace(rest[i - n]); }
        forall i | k <= i < end ensures IsDigit(s[i]) { assert IsDigit(rest[i - n]); }
      }
    }
  }

  /** The number that the digits of a counter are. */
  function Number(s: string, k: nat, end: nat): nat
    requires k <= end <= |s| && forall i | k <= i < end :: IsDigit(s[i])
  {
    assert forall i | 0 <= i < end - k :: s[k..end][i] == s[k + i];
    Decimals.Value(s[k..end])
  }

  lemma SliceOfRest(s: string, n: nat, from: nat, to: nat)
    requires from <= to && n + to <= |s|
    ensures s[n..][from..to] == s[n + from..n + to]
  {}

  lemma CounterIsMatched(s: string, name: string, k: nat, end: nat)
    requires IsCounter(s, name, k, end)
    ensures MatchName(s, name) == Some(Match(name, Number(s, k, end), end))
  {
    var rest, n := s[|name|..], |name|;
    CounterIsAssigned(s, name, k, end);
    AssignedIff(rest, k - n, end - n);
    SliceOfRest(s, n, k - n, end - n);
  }

  lemma MatchIsCounter(s: string, name: string) returns (k: nat)
    requires MatchName(s, name).Some?
    ensures IsCounter(s, name, k, MatchName(s, name).value.end)
    ensures MatchName(s, name).value.value == Number(s, k, MatchName(s, name).value.end)
  {
    var rest, n := s[|name|..], |name|;
    var (from, to) := Assigned(rest).value;
    k := n + from;
    AssignedIff(rest, from, to);
    CounterIsAssigned(s, name, k, n + to);
    SliceOfRest(s, n, from, to);
  }

  /** No name ends in another. */
  lemma NamesAreApart(a: string, b: string, i: nat)
    requires IsName(a) && IsName(b) && i + |b| == |a| && a[i..] == b
    ensures i == 0
  {
    SliceEnds(a, b, i);
    EndsTell(a, b);
  }

  lemma SliceEnds(a: string, b: string, i: nat)
    requires i + |b| == |a| && a[i..] == b && |b| >= 3
    ensures a[|a| - 1] == b[|b| - 1] && a[|a| - 3] == b[|b| - 3]
  {}

  lemma EndsTell(a: string, b: string)
    requires IsName(a) && IsName(b) && a[|a| - 1] == b[|b| - 1] && a[|a| - 3] == b[|b| - 3]
    ensures a == b
  {}

  lemma NamesAreLetters(name: string)
    requires IsName(name)
    ensures name != "" && forall i | 0 <= i < |name| :: IsLower(name[i]) || name[i] == '_'
  {}

  /** A counter inside a counter, from its start on, is itself. */
  lemma CountersAreApart(s: string, name: string, k: nat, end: nat, i: nat, other: string, l: nat, stop: nat)
    requires IsName(name) && IsName(other) && IsCounter(s, name, k, end)
    requires i < end && IsCounter(s[i..], other, l, stop)
    ensures i == 0 && other == name
  {
    var inner := s[i..];
    assert forall x | 0 <= x < |inner| :: inner[x] == s[i + x];
    NamesAreLetters(name);
    NamesAreLetters(other);
    assert inner[0] == inner[..|other|][0] == other[0];
    assert i < |name| by { CounterPlaces(s, name, k, end, i); }
    PlaceOfAssignment(s, name, k, end, i, other, l, stop);
    assert s[..|name|][i..] == inner[..|other|];
    NamesAreApart(name, other, i);
  }

  /** What stands at a place of a counter behind its name. */
  lemma CounterPlaces(s: string, name: string, k: nat, end: nat, i: nat)
    requires IsCounter(s, name, k, end) && i < end && (IsLower(s[i]) || s[i] == '_')
    ensures i < |name|
  {}

  /** Both assignments stand at the same place. */
  lemma PlaceOfAssignment(s: string, name: string, k: nat, end: nat, i: nat, other: string, l: nat, stop: nat)
    requires IsName(name) && IsName(other) && IsCounter(s, name, k, end)
    requires i < |name| && IsCounter(s[i..], other, l, stop)
    ensures i + |other| == |name|
  {
    NamesAreLetters(name);
    NamesAreLetters(other);
    var inner := s[i..];
    assert forall x | 0 <= x < |inner| :: inner[x] == s[i + x];
    assert forall x | 0 <= x < |name| :: s[x] == s[..|name|][x];
    assert forall x | 0 <= x < |other| :: inner[x] == inner[..|other|][x];
    assert inner[|other|] == s[i + |other|] && inner[|name| - i] == s[|name|];
  }

  ghost predicate IsMatched(s: string, m: Match) {
    exists k :: IsCounter(s, m.name, k, m.end) && m.value == Number(s, k, m.end)
  }

  /** The expression matches at the start iff a counter stands there. */
  lemma MatchAtIff(s: string)
    ensures MatchAt(s).Some? ==> IsName(MatchAt(s).value.name) && IsMatched(s, MatchAt(s).value)
    ensures forall name, k: nat, end: nat | IsName(name) && IsCounter(s, name, k, end) ::
      MatchAt(s) == Some(Match(name, Number(s, k, end), end))
  {
    FirstMatchIs(s, NAMES);
    if MatchAt(s).Some? {
      NamesAre(MatchAt(s).value.name);
      var k := MatchIsCounter(s, MatchAt(s).value.name);
    }
    forall name, k: nat, end: nat | IsName(name) && IsCounter(s, name, k, end)
      ensures MatchAt(s) == Some(Match(name, Number(s, k, end), end))
    {
      NamesAre(name);
      CounterIsMatched(s, name, k, end);
      var found := MatchAt(s).value;
      NamesAre(found.name);
      var l := MatchIsCounter(s, found.name);
      assert s[0..] == s;
      CountersAreApart(s, name, k, end, 0, found.name, l, found.end);
    }
  }

  lemma {:induction false} FirstMatchIs(s: string, names: seq<string>)
    ensures FirstMatch(s, names).Some? ==> MatchName(s, FirstMatch(s, names).value.name) == FirstMatch(s, names)
    ensures forall name | name in names && MatchName(s, name).Some? :: FirstMatch(s, names).Some?
    decreases |names|
  {
    if names != [] {
      FirstMatchIs(s, names[1..]);
      assert names == [names[0]] + names[1..];
    }
  }

  // ----- all of them -----

  /** A counter of this name stands at `i`. */
  ghost predicate StandsAt(s: string, i: nat, name: string) {
    i <= |s| && exists k: nat, end: nat :: IsCounter(s[i..], name, k, end)
  }

  /** The last counter of this name stands at `i` and gives this value. */
  ghost predicate IsLastAt(s: string, name: string, i: nat, value: nat) {
    && i <= |s| && (exists k: nat, end: nat :: IsCounter(s[i..], name, k, end) && value == Number(s[i..], k, end))
    && forall j: nat | i < j :: !StandsAt(s, j, name)
  }

  ghost predicate IsLastCount(s: string, name: string, value: nat) {
    exists i: nat :: IsLastAt(s, name, i, value)
  }

  predicate Holds(table: map<string, nat>, name: string, value: nat) { name in table && table[name] == value }

  lemma TableLast(front: seq<Match>, last: Match)
    ensures Table(front + [last]) == Table(front)[last.name := last.value]
  {
    var all := front + [last];
    assert all[..|all| - 1] == front && all[|all| - 1] == last;
  }

  lemma MergeUpdate(a: map<string, nat>, b: map<string, nat>, name: string, value: nat)
    ensures (a + b)[name := value] == a + b[name := value]
  {}

  lemma {:induction false} TableFront(m: Match, ms: seq<Match>)
    ensures Table([m] + ms) == map[m.name := m.value] + Table(ms)
    decreases |ms|
  {
    if ms == [] {
      assert [m] + ms == [] + [m];
      TableLast([], m);
    } else {
      var front, last := ms[..|ms| - 1], ms[|ms| - 1];
      assert ms == front + [last] && [m] + ms == ([m] + front) + [last];
      TableFront(m, front);
      TableLast(front, last);
      TableLast([m] + front, last);
      MergeUpdate(map[m.name := m.value], Table(front), last.name, last.value);
    }
  }

  /** Further on, the same counters stand. */
  lemma StandsBehind(s: string, n: nat, j: nat, name: string)
    requires n <= j <= |s|
    ensures StandsAt(s, j, name) <==> StandsAt(s[n..], j - n, name)
  {
    assert s[n..][j - n..] == s[j..];
  }

  lemma LastBehind(s: string, n: nat, name: string, i: nat, value: nat)
    requires n <= i <= |s|
    ensures IsLastAt(s, name, i, value) <==> IsLastAt(s[n..], name, i - n, value)
  {
    assert s[n..][i - n..] == s[i..];
    forall j: nat | i < j <= |s| ensures StandsAt(s, j, name) <==> StandsAt(s[n..], j - n, name) { StandsBehind(s, n, j, name); }
    if IsLastAt(s[n..], name, i - n, value) {
      forall j: nat | i < j ensures !StandsAt(s, j, name) {
        assert j <= |s| ==> !StandsAt(s[n..], j - n, name);
      }
    }
    if IsLastAt(s, name, i, value) {
      forall j: nat | i - n < j ensures !StandsAt(s[n..], j, name) {
        assert n + j <= |s| ==> !StandsAt(s, n + j, name);
      }
    }
  }

  /** Before `n`, at most one counter stands, and at the start. */
  ghost predicate IsClear(s: string, n: nat) {
    forall j: nat, name | 0 < j < n && IsName(name) :: !StandsAt(s, j, name)
  }

  lemma CountBehind(s: string, n: nat, name: string, value: nat)
    requires n <= |s| && IsName(name) && IsClear(s, n) && 0 < n
    ensures IsLastCount(s[n..], name, value) ==> IsLastCount(s, name, value)
    ensures IsLastCount(s, name, value) ==> IsLastCount(s[n..], name, value) || IsLastAt(s, name, 0, value)
  {
    if i: nat :| IsLastAt(s[n..], name, i, value) { LastBehind(s, n, name, n + i, value); }
    if i: nat :| IsLastAt(s, name, i, value) {
      assert StandsAt(s, i, name);
      if i >= n { LastBehind(s, n, name, i, value); }
    }
  }

  /** If a counter stands somewhere, there is a last one. */
  lemma {:induction false} LastExists(s: string, j: nat, name: string)
    requires StandsAt(s, j, name)
    ensures exists value :: IsLastCount(s, name, value)
    decreases |s| - j
  {
    if i: nat :| j < i && StandsAt(s, i, name) {
      LastExists(s, i, name);
    } else {
      var k: nat, end: nat :| IsCounter(s[j..], name, k, end);
      var value := Number(s[j..], k, end);
      assert IsLastAt(s, name, j, value);
      assert IsLastCount(s, name, value);
    }
  }

  lemma MatchIsClear(s: string, m: Match)
    requires MatchAt(s) == Some(m)
    ensures IsClear(s, m.end) && IsName(m.name)
  {
    MatchAtIff(s);
    var k :| IsCounter(s, m.name, k, m.end);
    forall j: nat, name | 0 < j < m.end && IsName(name) ensures !StandsAt(s, j, name) {
      if StandsAt(s, j, name) {
        var l: nat, stop: nat :| IsCounter(s[j..], name, l, stop);
        CountersAreApart(s, m.name, k, m.end, j, name, l, stop);
      }
    }
  }

  lemma NoneBehind(s: string, n: nat, name: string)
    requires 0 < n <= |s| && IsName(name) && IsClear(s, n) && forall other :: !IsLastCount(s[n..], name, other)
    ensures forall j: nat | 0 < j :: !StandsAt(s, j, name)
  {
    forall j: nat | 0 < j ensures !StandsAt(s, j, name) {
      if n <= j && StandsAt(s, j, name) {
        StandsBehind(s, n, j, name);
        LastExists(s[n..], j - n, name);
      }
    }
  }

  lemma FirstIsLast(s: string, n: nat, name: string, value: nat)
    requires 0 < n <= |s| && IsLastAt(s, name, 0, value)
    ensures forall other :: !IsLastCount(s[n..], name, other)
  {
    forall other ensures !IsLastCount(s[n..], name, other) {
      if i: nat :| IsLastAt(s[n..], name, i, other) {
        assert StandsAt(s[n..], i, name);
        StandsBehind(s, n, n + i, name);
      }
    }
  }

  lemma FirstIsMatch(s: string, m: Match, name: string, value: nat)
    requires MatchAt(s) == Some(m) && IsName(name)
    ensures IsLastAt(s, name, 0, value) <==>
      name == m.name && value == m.value && forall j: nat | 0 < j :: !StandsAt(s, j, name)
  {
    MatchAtIff(s);
    assert s[0..] == s;
  }

  /** What is last in the text: what is last behind the first match, or else that match. */
  lemma LastBehindMatch(s: string, m: Match, name: string, value: nat)
    requires MatchAt(s) == Some(m) && IsName(name)
    ensures IsLastCount(s, name, value) <==>
      || IsLastCount(s[m.end..], name, value)
      || (name == m.name && value == m.value && forall other :: !IsLastCount(s[m.end..], name, other))
  {
    MatchIsClear(s, m);
    FirstIsMatch(s, m, name, value);
    CountBehind(s, m.end, name, value);
    if name == m.name && value == m.value && forall other :: !IsLastCount(s[m.end..], name, other) {
      NoneBehind(s, m.end, name);
    }
    if IsLastAt(s, name, 0, value) { FirstIsLast(s, m.end, name, value); }
  }

  lemma LastBehindNone(s: string, name: string, value: nat)
    requires s != "" && MatchAt(s).None? && IsName(name)
    ensures IsLastCount(s, name, value) <==> IsLastCount(s[1..], name, value)
  {
    MatchAtIff(s);
    assert s[0..] == s;
    CountBehind(s, 1, name, value);
  }

  /** The table of the matches holds, for each name, the value of its last counter in the text,
      wherever it stands: matching from left to right misses none. */
  lemma {:induction false} TableHoldsLastCounts(s: string, name: string, value: nat)
    requires IsName(name)
    ensures Holds(Table(Matches(s)), name, value) <==> IsLastCount(s, name, value)
    decreases |s|
  {
    if s == "" {
      assert !IsLastCount(s, name, value);
    } else if MatchAt(s).None? {
      LastBehindNone(s, name, value);
      TableHoldsLastCounts(s[1..], name, value);
    } else {
      var m := MatchAt(s).value;
      var rest := s[m.end..];
      LastBehindMatch(s, m, name, value);
      TableFront(m, Matches(rest));
      forall other ensures Holds(Table(Matches(rest)), name, other) <==> IsLastCount(rest, name, other) {
        TableHoldsLastCounts(rest, name, other);
      }
      TableOfTwo(m, Table(Matches(rest)), name, value);
    }
  }

  lemma TableOfTwo(m: Match, rest: map<string, nat>, name: string, value: nat)
    ensures Holds(map[m.name := m.value] + rest, name, value) <==>
      Holds(rest, name, value) || (name == m.name && value == m.value && forall other :: !Holds(rest, name, other))
  {
    if name in rest { assert Holds(rest, name, rest[name]); }
  }
}
