/** Key, text and tree checks of benchmark records (qa/benchmark_output_privacy.py). */
module BenchmarkPrivacy {
  import opened Chars
  import opened JsonValue
  import KeyTokens

  const FORBIDDEN_KEYS: seq<string> := [
    "access_token", "command_line", "cmdline", "argv", "args", "environment", "env", "secret", "token", "api_key",
    "password", "threshold", "thresholds", "pass", "fail", "passed", "failed", "production_claim", "production_ready"]
  const FORBIDDEN_KEY_TOKENS: seq<string> := [
    "argv", "cmdline", "env", "environment", "password", "secret", "threshold", "thresholds", "token"]
  const FORBIDDEN_KEY_SEQUENCES: seq<seq<string>> := [
    ["access", "token"], ["api", "key"], ["command", "line"], ["raw", "debug"], ["production", "ready"],
    ["production", "capacity"], ["production", "claim"], ["release", "eligible"], ["release", "ready"],
    ["hard", "threshold"], ["threshold", "pass"], ["threshold", "fail"]]
  const FORBIDDEN_COMPACT_KEY_CONCEPTS: seq<string> := [
    "accesstoken", "apikey", "commandline", "rawdebug", "productionready", "productioncapacity", "productionclaim",
    "releaseeligible", "releaseready", "hardthreshold", "thresholdpass", "thresholdfail"]
  const ROOT_RECORD_CONTROL_KEYS: set<string> := {
    "hard_thresholds_enforced", "production_capacity_claim", "release_eligible", "threshold_status"}
  const FORBIDDEN_TEXT: seq<string> := [
    "--token", "api_key=", "AWS_SECRET", "BEGIN PRIVATE KEY", "password=", "Bearer ", "/proc/", "/sys/"]

  // ----- keys -----

  /** An underscore at every boundary between [a-z0-9] and [A-Z]. */
  function SplitCamel(key: string): string {
    if |key| <= 1 then key
    else
      var boundary := (IsLower(key[0]) || IsDigit(key[0])) && IsUpper(key[1]);
      (if boundary then [key[0], '_'] else [key[0]]) + SplitCamel(key[1..])
  }

  function NormalizedKeyTokens(key: string): seq<string> {
    KeyTokens.LowerAll(KeyTokens.Chunks(SplitCamel(key)))
  }

  function CompactKey(key: string): string {
    Concat(KeyTokens.LowerAll(KeyTokens.Chunks(key)))
  }

  function DashesToUnderscores(s: string): string {
    if s == "" then "" else [if s[0] == '-' then '_' else s[0]] + DashesToUnderscores(s[1..])
  }

  predicate IsForbiddenSpelling(key: string) {
    DashesToUnderscores(Lower(key)) in FORBIDDEN_KEYS
  }

  predicate HasForbiddenToken(key: string) {
    exists token | token in NormalizedKeyTokens(key) :: token in FORBIDDEN_KEY_TOKENS
  }

  predicate HasForbiddenConcept(key: string) {
    exists concept | concept in FORBIDDEN_COMPACT_KEY_CONCEPTS :: Contains(CompactKey(key), concept)
  }

  predicate HasForbiddenSequence(key: string) {
    exists sequence | sequence in FORBIDDEN_KEY_SEQUENCES :: Contains(NormalizedKeyTokens(key), sequence)
  }

  predicate ForbiddenKey(key: string, context: string) {
    if context == "record" && key in ROOT_RECORD_CONTROL_KEYS then false
    else
      || IsForbiddenSpelling(key)
      || HasForbiddenToken(key)
      || HasForbiddenConcept(key)
      || HasForbiddenSequence(key)
  }

  lemma {:induction false} SplitCamelKeepsAlnum(key: string)
    ensures LowerAlnum(SplitCamel(key)) == LowerAlnum(key)
  {
    if |key| > 1 {
      SplitCamelKeepsAlnum(key[1..]);
      var boundary := (IsLower(key[0]) || IsDigit(key[0])) && IsUpper(key[1]);
      var front := if boundary then [key[0], '_'] else [key[0]];
      LowerAlnumConcat(front, SplitCamel(key[1..]));
      assert front[1..] == if boundary then "_" else "";
      assert LowerAlnum(front) == if IsAlnum(key[0]) then [LowerChar(key[0])] else "";
    }
  }

  /** Both tokenisers of the repository split a key into pieces of its compact form. */
  lemma TokensConcatenateToCompactKey(key: string)
    ensures Concat(NormalizedKeyTokens(key)) == CompactKey(key)
    ensures Concat(KeyTokens.Tokens(key)) == CompactKey(key)
  {
    KeyTokens.ChunksCover(SplitCamel(key));
    KeyTokens.ChunksCover(key);
    SplitCamelKeepsAlnum(key);
    KeyTokens.TokensAreLossless(key);
  }

  lemma ContainsConcat(tokens: seq<string>, part: seq<string>)
    requires Contains(tokens, part)
    ensures Contains(Concat(tokens), Concat(part))
  {
    var i :| 0 <= i <= |tokens| && OccursAt(tokens, part, i);
    var left, right := tokens[..i], tokens[i + |part|..];
    assert tokens == left + part + right;
    ConcatAppend(left + part, right);
    ConcatAppend(left, part);
    var s := Concat(part);
    assert s[0..|s|] == s && OccursAt(s, s, 0);
    ContainsInContext(s, s, Concat(left), Concat(right));
  }

  lemma SequenceIsConcept(sequence: seq<string>)
    requires sequence in FORBIDDEN_KEY_SEQUENCES
    ensures Concat(sequence) in FORBIDDEN_COMPACT_KEY_CONCEPTS
  {
    PairConcat(sequence);
    var joined := sequence[0] + sequence[1];
    assert joined in FORBIDDEN_COMPACT_KEY_CONCEPTS by {
      var i :| 0 <= i < 12 && sequence == FORBIDDEN_KEY_SEQUENCES[i];
      ConceptAt(i);
    }
  }

  lemma ConceptAt(i: nat)
    requires i < 12
    ensures |FORBIDDEN_KEY_SEQUENCES[i]| == 2
    ensures FORBIDDEN_KEY_SEQUENCES[i][0] + FORBIDDEN_KEY_SEQUENCES[i][1] == FORBIDDEN_COMPACT_KEY_CONCEPTS[i]
  {
    if i < 4 {
      assert "access" + "token" == "accesstoken" && "api" + "key" == "apikey";
      assert "command" + "line" == "commandline" && "raw" + "debug" == "rawdebug";
    } else if i < 8 {
      assert "production" + "ready" == "productionready" && "production" + "capacity" == "productioncapacity";
      assert "production" + "claim" == "productionclaim" && "release" + "eligible" == "releaseeligible";
    } else {
      assert "release" + "ready" == "releaseready" && "hard" + "threshold" == "hardthreshold";
      assert "threshold" + "pass" == "thresholdpass" && "threshold" + "fail" == "thresholdfail";
    }
  }

  lemma PairConcat(pair: seq<string>)
    requires |pair| == 2
    ensures Concat(pair) == pair[0] + pair[1]
  {
    assert pair[1..] == [pair[1]] && pair[1..][1..] == [];
    assert Concat(pair[1..]) == pair[1] + "";
  }

  /** Redundancy: whenever the sequence check hits, the concept check has hit already,
      so the last check never changes the answer. */
  lemma SequenceCheckIsRedundant(key: string, context: string)
    ensures HasForbiddenSequence(key) ==> HasForbiddenConcept(key)
    ensures ForbiddenKey(key, context) <==>
      && !(context == "record" && key in ROOT_RECORD_CONTROL_KEYS)
      && (IsForbiddenSpelling(key) || HasForbiddenToken(key) || HasForbiddenConcept(key))
  {
    if HasForbiddenSequence(key) {
      var sequence :| sequence in FORBIDDEN_KEY_SEQUENCES && Contains(NormalizedKeyTokens(key), sequence);
      ContainsConcat(NormalizedKeyTokens(key), sequence);
      TokensConcatenateToCompactKey(key);
      SequenceIsConcept(sequence);
    }
  }

  // ----- the tree scan -----

  function NatText(n: nat): string {
    if n < 10 then [n as char + '0'] else NatText(n / 10) + [(n % 10) as char + '0']
  }

  /** The claim patterns `\bA[\s_-]+B\b`, ignoring case, as pairs of A and B. */
  const FORBIDDEN_CLAIMS: seq<(string, string)> := [
    ("production", "ready"), ("production", "capacity"), ("release", "eligible"), ("threshold", "pass"),
    ("threshold", "fail")]

  predicate IsBoundary(s: string, i: nat) {
    (0 < i <= |s| && (IsAlnum(s[i - 1]) || s[i - 1] == '_')) != (i < |s| && (IsAlnum(s[i]) || s[i] == '_'))
  }

  predicate ClaimAt(s: string, claim: (string, string), i: nat, j: nat) {
    ClaimIn(s, Lower(s), claim, i, j)
  }

  predicate ClaimIn(s: string, lowered: string, claim: (string, string), i: nat, j: nat) {
    && IsBoundary(s, i) && OccursAt(lowered, claim.0, i)
    && i + |claim.0| < j <= |s| && (forall k | i + |claim.0| <= k < j :: IsSpace(s[k]) || s[k] == '_' || s[k] == '-')
    && OccursAt(lowered, claim.1, j) && IsBoundary(s, j + |claim.1|)
  }

  predicate HasClaim(s: string) {
    exists n, i, j | 0 <= n < |FORBIDDEN_CLAIMS| && 0 <= i <= |s| && 0 <= j <= |s| :: ClaimAt(s, FORBIDDEN_CLAIMS[n], i, j)
  }

  predicate CleanText(s: string) {
    && (forall i | 0 <= i < |FORBIDDEN_TEXT| :: !Contains(Lower(s), Lower(FORBIDDEN_TEXT[i])))
    && !HasClaim(s)
  }

  /** `reject_private_leaks` does not raise. */
  predicate Accepts(v: Json, context: string) {
    match v
    case JNull => true
    case JBool(_) => true
    case JInt(_) => true
    case JFloat(_) => true
    case JNonFinite => false
    case JStr(s) => CleanText(s)
    case JList(items) =>
      forall i | 0 <= i < |items| :: Accepts(items[i], context + "[" + NatText(i) + "]")
    case JObject(fields) =>
      forall k | k in fields :: !ForbiddenKey(k, context) && Accepts(fields[k], context + "." + k)
  }

  /** A node on its own: its keys, or itself if it is a leaf. */
  predicate CleanNode(v: Json, exempt: bool) {
    match v
    case JNonFinite => false
    case JStr(s) => CleanText(s)
    case JObject(fields) => forall k | k in fields :: (exempt && k in ROOT_RECORD_CONTROL_KEYS) || !ForbiddenKey(k, "")
    case _ => true
  }

  lemma ChildContextIsNotRecord(context: string, sep: char, rest: string)
    requires sep == '.' || sep == '['
    ensures context + [sep] + rest != "record"
  {
    assert (context + [sep] + rest)[|context|] == sep;
    assert forall i | 0 <= i < |"record"| :: "record"[i] != '.' && "record"[i] != '[';
  }

  /** The scan accepts a tree iff every key on every path and every leaf is clean, the
      control keys being exempt at the top of the value scanned as "record" and only there. */
  lemma {:induction false} AcceptsIffCleanEverywhere(v: Json, context: string)
    ensures Accepts(v, context) <==> Everywhere(v, CleanNode, context == "record")
    decreases v
  {
    match v
    case JList(items) =>
      forall i | 0 <= i < |items|
        ensures Accepts(items[i], context + "[" + NatText(i) + "]") <==> Everywhere(items[i], CleanNode, false)
      {
        var child := context + "[" + NatText(i) + "]";
        assert child == context + ['['] + (NatText(i) + "]");
        ChildContextIsNotRecord(context, '[', NatText(i) + "]");
        AcceptsIffCleanEverywhere(items[i], child);
      }
      EverywhereIsRootAndBelow(v, CleanNode, context == "record");
    case JObject(fields) =>
      forall k | k in fields
        ensures Accepts(fields[k], context + "." + k) <==> Everywhere(fields[k], CleanNode, false)
      {
        ChildContextIsNotRecord(context, '.', k);
        AcceptsIffCleanEverywhere(fields[k], context + "." + k);
      }
      EverywhereIsRootAndBelow(v, CleanNode, context == "record");
    case _ => EverywhereIsRootAndBelow(v, CleanNode, context == "record");
  }

  /** Every value strictly inside an accepted tree is accepted in any context; so is the
      tree itself, unless it was exempt as the record. */
  lemma SubtreeIsAccepted(v: Json, context: string, path: seq<Step>, other: string)
    requires Accepts(v, context) && At(v, path).Some?
    requires path != [] || context != "record"
    ensures Accepts(At(v, path).value, other)
  {
    var w := At(v, path).value;
    AcceptsIffCleanEverywhere(v, context);
    EverywhereInSubtree(v, CleanNode, context == "record", path);
    AcceptsIffCleanEverywhere(w, other);
    EverywhereIsRootAndBelow(w, CleanNode, false);
    EverywhereIsRootAndBelow(w, CleanNode, other == "record");
  }

  /** The exemption is worth exactly its keys at the top: a tree accepted as the record is
      accepted elsewhere iff no key of its top object owes its pass to the exemption. */
  lemma ExemptionIsTopLevelOnly(v: Json, other: string)
    requires Accepts(v, "record") && other != "record"
    ensures Accepts(v, other) <==>
      !(v.JObject? && exists k | k in v.fields :: k in ROOT_RECORD_CONTROL_KEYS && ForbiddenKey(k, other))
  {
    AcceptsIffCleanEverywhere(v, "record");
    AcceptsIffCleanEverywhere(v, other);
    EverywhereIsRootAndBelow(v, CleanNode, true);
    EverywhereIsRootAndBelow(v, CleanNode, false);
  }
}
