/** The counters that a live sample's event text names (qa/live_behavior_check.py). */
module EventCounters {
  import opened Wrappers
  import opened Chars
  import opened JsonValue
  import Decimals

  /** The names in the order `(nr_rejected|dispatch_failed|fallbacks?|fatal)` tries them. */
  const NAMES := ["nr_rejected", "dispatch_failed", "fallbacks", "fallback", "fatal"]

  /** The names that the growth check compares. */
  const COMPARED := ["nr_rejected", "dispatch_failed", "fallback", "fatal"]

  /** One match: the counter, its value, and where the match ends. */
  datatype Match = Match(name: string, value: nat, end: nat)

  /** `[:=]\s*([0-9]+)` at the start of `s`: where the digits start and end. */
  function Assigned(s: string): (r: Option<(nat, nat)>)
    ensures r.Some? ==> 1 <= r.value.0 < r.value.1 <= |s| && All(s[r.value.0..r.value.1], IsDigit)
  {
    if s == "" || (s[0] != ':' && s[0] != '=') then None
    else
      var from := 1 + Span(s[1..], IsSpace);
      var n := Span(s[from..], IsDigit);
      assert s[from..][..n] == s[from..from + n];
      if n == 0 then None else Some((from, from + n))
  }

  function MatchName(s: string, name: string): (r: Option<Match>)
    ensures r.Some? ==> r.value.name == name && 0 < r.value.end <= |s|
  {
    if !(name <= s) then None
    else
      match Assigned(s[|name|..])
      case None => None
      case Some((from, to)) => Some(Match(name, Decimals.Value(s[|name|..][from..to]), |name| + to))
  }

  /** The whole expression at the start of `s`. */
  function MatchAt(s: string): (r: Option<Match>)
    ensures r.Some? ==> r.value.name in NAMES && 0 < r.value.end <= |s|
  {
    FirstMatch(s, NAMES)
  }

  function FirstMatch(s: string, names: seq<string>): (r: Option<Match>)
    ensures r.Some? ==> r.value.name in names && 0 < r.value.end <= |s|
  {
    if names == [] then None
    else if MatchName(s, names[0]).Some? then MatchName(s, names[0])
    else FirstMatch(s, names[1..])
  }

  /** `finditer`: the matches from left to right. */
  function Matches(s: string): (r: seq<Match>)
    ensures forall i | 0 <= i < |r| :: r[i].name in NAMES
    decreases |s|
  {
    if s == "" then []
    else
      match MatchAt(s)
      case None => Matches(s[1..])
      case Some(m) => [m] + Matches(s[m.end..])
  }

  /** The dict of the matches, the last of a name winning. */
  function Table(matches: seq<Match>): (r: map<string, nat>)
    ensures forall name | name in r :: exists i :: 0 <= i < |matches| && matches[i].name == name
  {
    if matches == [] then map[]
    else
      var last := matches[|matches| - 1];
      Table(matches[..|matches| - 1])[last.name := last.value]
  }

  /** `parse_counters`. */
  function ParseCounters(row: Row): (r: map<string, nat>)
    ensures forall name | name in r :: name in NAMES
  {
    match Get(row, "events")
    case Some(JObject(events)) => (match Get(events, "value") case Some(JStr(s)) => Table(Matches(s)) case _ => map[])
    case _ => map[]
  }

  predicate MayStay(before: map<string, nat>, after: map<string, nat>, name: string) {
    name in before && name in after ==> after[name] <= before[name]
  }

  /** No counter that both tables have is higher in the later one. */
  predicate NoneGrows(before: map<string, nat>, after: map<string, nat>) {
    forall name | name in before && name in after :: after[name] <= before[name]
  }

  predicate NoneComparedGrows(before: map<string, nat>, after: map<string, nat>) {
    forall i | 0 <= i < |COMPARED| :: MayStay(before, after, COMPARED[i])
  }

  /** The expression yields one name that the check does not compare. */
  lemma NamesAreComparedBut(name: string)
    ensures name in NAMES <==> name in COMPARED || name == "fallbacks"
  {}

  /** Exactly what the check misses: no counter grows iff none that is compared does, and
      `fallbacks` does not. */
  lemma NoneGrowsIff(first: Row, last: Row)
    ensures NoneGrows(ParseCounters(first), ParseCounters(last)) <==>
      && NoneComparedGrows(ParseCounters(first), ParseCounters(last))
      && MayStay(ParseCounters(first), ParseCounters(last), "fallbacks")
  {
    var before, after := ParseCounters(first), ParseCounters(last);
    if NoneComparedGrows(before, after) && MayStay(before, after, "fallbacks") {
      forall name | name in before && name in after ensures after[name] <= before[name] {
        NamesAreComparedBut(name);
        assert name != "fallbacks" ==> exists i :: 0 <= i < |COMPARED| && COMPARED[i] == name;
      }
    }
  }

  // ----- a counter on its own -----

  lemma AssignedAlone(digits: string)
    requires Decimals.IsDecimal(digits)
    ensures Assigned("=" + digits) == Some((1, 1 + |digits|)) && ("=" + digits)[1..1 + |digits|] == digits
  {
    var s := "=" + digits;
    assert s[1..] == digits && s[1..1 + |digits|] == digits;
    SpanAll(digits, IsDigit);
  }

  /** The text "fallbacks=N" gives the one counter `fallbacks`, with value N. */
  lemma FallbacksAlone(digits: string)
    requires Decimals.IsDecimal(digits)
    ensures Table(Matches("fallbacks=" + digits)) == map["fallbacks" := Decimals.Value(digits)]
  {
    var name := "fallbacks";
    var s := name + ("=" + digits);
    assert "fallbacks=" + digits == s;
    assert s[..|name|] == name && s[|name|..] == "=" + digits;
    AssignedAlone(digits);
    var m := Match(name, Decimals.Value(digits), |s|);
    assert MatchName(s, name) == Some(m);
    SkipsOthers(s);
    assert MatchAt(s) == Some(m);
    assert s[|s|..] == "" && Matches(s) == [m] + [];
    assert [m][..0] == [];
  }

  lemma SkipsOthers(s: string)
    requires |s| > 1 && s[0] == 'f' && MatchName(s, "fallbacks").Some?
    ensures MatchAt(s) == MatchName(s, "fallbacks")
  {
    assert NAMES[0][0] == 'n' && NAMES[1][0] == 'd';
    assert NAMES[1..][0] == NAMES[1] && NAMES[1..][1..][0] == NAMES[2];
    assert FirstMatch(s, NAMES) == FirstMatch(s, NAMES[1..]) == FirstMatch(s, NAMES[1..][1..]);
  }
}
