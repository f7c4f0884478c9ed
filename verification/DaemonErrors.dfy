/** The daemon's error mappings, collected from its source without conflict
    (qa/openrpc_contract_daemon.py). */
module DaemonErrors {
  import opened Wrappers

  /** One `writeRpcError` call found in the source. */
  datatype Mapping = Mapping(incident: string, code: int, message: string)

  /** All incidents are known, and calls for the same incident agree. */
  predicate IsConsistent(calls: seq<Mapping>, known: set<string>) {
    && (forall i | 0 <= i < |calls| :: calls[i].incident in known)
    && (forall i, j | 0 <= i < j < |calls| && calls[i].incident == calls[j].incident :: calls[i] == calls[j])
  }

  /** The table holds exactly the calls, by incident. */
  predicate IsTableOf(table: map<string, Mapping>, calls: seq<Mapping>) {
    && (forall i | 0 <= i < |calls| :: calls[i].incident in table && table[calls[i].incident] == calls[i])
    && (forall incident | incident in table :: table[incident] in calls && table[incident].incident == incident)
  }

  /** `extract_daemon_error_mappings`, over the calls in the order they stand. */
  method ExtractDaemonErrorMappings(calls: seq<Mapping>, known: set<string>) returns (r: Option<map<string, Mapping>>)
    ensures r.Some? <==> IsConsistent(calls, known)
    ensures r.Some? ==> IsTableOf(r.value, calls)
  {
    var table: map<string, Mapping> := map[];
    for i := 0 to |calls|
      invariant IsConsistent(calls[..i], known) && IsTableOf(table, calls[..i])
    {
      var mapping := calls[i];
      ghost var front := calls[..i];
      if mapping.incident !in known { return None; }
      if mapping.incident in table && table[mapping.incident] != mapping {
        ghost var k :| 0 <= k < i && front[k] == table[mapping.incident];
        assert calls[k].incident == calls[i].incident && calls[k] != calls[i];
        return None;
      }
      assert calls[..i + 1] == front + [mapping];
      table := table[mapping.incident := mapping];
    }
    assert calls[..|calls|] == calls;
    return Some(table);
  }

  /** The table depends neither on the order of the calls nor on repeating them. */
  lemma TableIgnoresOrder(one: seq<Mapping>, other: seq<Mapping>, known: set<string>, t: map<string, Mapping>, u: map<string, Mapping>)
    requires forall mapping :: mapping in one <==> mapping in other
    ensures IsConsistent(one, known) <==> IsConsistent(other, known)
    ensures IsTableOf(t, one) && IsTableOf(u, other) ==> t == u
  {
    if IsConsistent(one, known) { ConsistencyIgnoresOrder(one, other, known); }
    if IsConsistent(other, known) { ConsistencyIgnoresOrder(other, one, known); }
    if IsTableOf(t, one) && IsTableOf(u, other) {
      forall incident | incident in t || incident in u
        ensures incident in t && incident in u && t[incident] == u[incident]
      {
        var mapping := if incident in t then t[incident] else u[incident];
        assert mapping in one && mapping in other;
        var i :| 0 <= i < |one| && one[i] == mapping;
        var j :| 0 <= j < |other| && other[j] == mapping;
      }
    }
  }

  lemma ConsistencyIgnoresOrder(one: seq<Mapping>, other: seq<Mapping>, known: set<string>)
    requires (forall mapping :: mapping in one <==> mapping in other) && IsConsistent(one, known)
    ensures IsConsistent(other, known)
  {
    forall i, j | 0 <= i < |other| && 0 <= j < |other| && other[i].incident == other[j].incident
      ensures other[i].incident in known && other[i] == other[j]
    {
      assert other[i] in one && other[j] in one;
      var k :| 0 <= k < |one| && one[k] == other[i];
      var l :| 0 <= l < |one| && one[l] == other[j];
      assert k == l || one[k] == one[l];
    }
  }
}
