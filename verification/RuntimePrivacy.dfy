/** The private-leak scan of runtime samples (qa/runtime_sample_common.py). */
module RuntimePrivacy {
  import opened Chars
  import opened JsonValue
  import KeyTokens
  import KeyBoundaries

  const FORBIDDEN_KEYS: set<string> := {
    "command_line", "cmdline", "argv", "args", "environment", "env", "secret", "token", "api_key"}
  const CLAIM_KEYS: set<string> := {
    "production_claim", "production_capacity_claim", "release_eligible", "release_eligible_live_proof"}
  const FORBIDDEN_TEXT: seq<string> := [
    "--token", "api_key=", "AWS_SECRET", "BEGIN PRIVATE KEY", "password=", "/proc/", "/sys/"]

  const FORBIDDEN_KEY_PATTERNS: set<seq<string>> := set key | key in FORBIDDEN_KEYS :: KeyTokens.Tokens(key)

  predicate PrivateText(s: string) {
    exists needle | needle in FORBIDDEN_TEXT :: Contains(Lower(s), Lower(needle))
  }

  predicate CleanField(key: string, child: Json) {
    !KeyTokens.HasPattern(key, FORBIDDEN_KEY_PATTERNS) && !(Lower(key) in CLAIM_KEYS && child == JBool(true))
  }

  /** `reject_private_leaks` does not raise. */
  predicate Accepts(v: Json) {
    match v
    case JObject(fields) => forall k | k in fields :: CleanField(k, fields[k]) && Accepts(fields[k])
    case JList(items) => forall i | 0 <= i < |items| :: Accepts(items[i])
    case JStr(s) => !PrivateText(s)
    case _ => true
  }

  predicate CleanNode(v: Json, exempt: bool) {
    match v
    case JObject(fields) => forall k | k in fields :: CleanField(k, fields[k])
    case JStr(s) => !PrivateText(s)
    case _ => true
  }

  /** The scan accepts a tree iff every field on every path and every text is clean. */
  lemma {:induction false} AcceptsIffCleanEverywhere(v: Json)
    ensures Accepts(v) <==> Everywhere(v, CleanNode, false)
    decreases v
  {
    match v
    case JObject(fields) =>
      forall k | k in fields ensures Accepts(fields[k]) <==> Everywhere(fields[k], CleanNode, false) {
        AcceptsIffCleanEverywhere(fields[k]);
      }
      EverywhereIsRootAndBelow(v, CleanNode, false);
    case JList(items) =>
      forall i | 0 <= i < |items| ensures Accepts(items[i]) <==> Everywhere(items[i], CleanNode, false) {
        AcceptsIffCleanEverywhere(items[i]);
      }
      EverywhereIsRootAndBelow(v, CleanNode, false);
    case _ => EverywhereIsRootAndBelow(v, CleanNode, false);
  }

  /** Every subtree of an accepted tree is accepted. */
  lemma SubtreeIsAccepted(v: Json, path: seq<Step>)
    requires Accepts(v) && At(v, path).Some?
    ensures Accepts(At(v, path).value)
  {
    AcceptsIffCleanEverywhere(v);
    EverywhereInSubtree(v, CleanNode, false, path);
    AcceptsIffCleanEverywhere(At(v, path).value);
  }

  lemma ForbiddenKeyIsFlagged(key: string)
    requires key in FORBIDDEN_KEYS
    ensures KeyTokens.HasPattern(key, FORBIDDEN_KEY_PATTERNS)
  {
    var tokens := KeyTokens.Tokens(key);
    assert tokens[0..|tokens|] == tokens && OccursAt(tokens, tokens, 0);
    assert tokens in FORBIDDEN_KEY_PATTERNS;
  }

  /** A prefix and a suffix do not hide a forbidden key, if a character such as "_" sets each
      off: a tree with such a key at any depth is rejected. */
  lemma DressedForbiddenKeyIsRejected(v: Json, path: seq<Step>, before: string, key: string, after: string, sep: char)
    requires At(v, path).Some? && At(v, path).value.JObject?
    requires key in FORBIDDEN_KEYS && !IsAlnum(sep)
    requires before + [sep] + key + [sep] + after in At(v, path).value.fields
    ensures !Accepts(v)
  {
    ForbiddenKeyIsFlagged(key);
    KeyTokens.FlaggedKeyStaysFlagged(key, before, after, sep, FORBIDDEN_KEY_PATTERNS);
    var dressed := before + [sep] + key + [sep] + after;
    assert !CleanField(dressed, At(v, path).value.fields[dressed]);
    if Accepts(v) {
      SubtreeIsAccepted(v, path);
    }
  }

  // ----- what is rejected, in words -----

  /** The words that no key may hold next to each other. */
  const PRIVATE_WORDS: set<seq<string>> := {
    ["command", "line"], ["cmdline"], ["argv"], ["args"], ["environment"], ["env"], ["secret"], ["token"], ["api", "key"]}

  /** `key` is `words` in snake case. */
  predicate IsSpelled(key: string, words: seq<string>) {
    KeyBoundaries.AreWords(words) && (words == [key] || (|words| == 2 && key == words[0] + "_" + words[1]))
  }

  lemma SpelledTokens(key: string, words: seq<string>)
    requires IsSpelled(key, words)
    ensures KeyTokens.Tokens(key) == words
  {
    KeyTokens.TokenIsOneToken(words[0]);
    if |words| == 2 {
      KeyTokens.TokenIsOneToken(words[1]);
      KeyTokens.TokensAppend(words[0], '_', words[1]);
      assert words == [words[0]] + [words[1]];
    }
  }

  lemma KeyIsSpelled(key: string) returns (words: seq<string>)
    requires key in FORBIDDEN_KEYS
    ensures words in PRIVATE_WORDS && IsSpelled(key, words)
  {
    words := if key == "command_line" then ["command", "line"] else if key == "api_key" then ["api", "key"] else [key];
  }

  lemma WordsAreSpelled(words: seq<string>) returns (key: string)
    requires words in PRIVATE_WORDS
    ensures key in FORBIDDEN_KEYS && IsSpelled(key, words)
  {
    key := if words == ["command", "line"] then "command_line" else if words == ["api", "key"] then "api_key" else words[0];
  }

  /** The patterns are those words. */
  lemma PatternsAreWords()
    ensures FORBIDDEN_KEY_PATTERNS == PRIVATE_WORDS
  {
    forall key | key in FORBIDDEN_KEYS ensures KeyTokens.Tokens(key) in PRIVATE_WORDS {
      var words := KeyIsSpelled(key);
      SpelledTokens(key, words);
    }
    forall words | words in PRIVATE_WORDS ensures words in FORBIDDEN_KEY_PATTERNS {
      var key := WordsAreSpelled(words);
      SpelledTokens(key, words);
    }
  }

  lemma PrivateTextIff(s: string)
    ensures PrivateText(s) <==> exists needle | needle in FORBIDDEN_TEXT :: Appears(s, needle)
  {
    forall needle | needle in FORBIDDEN_TEXT ensures Contains(Lower(s), Lower(needle)) <==> Appears(s, needle) {
      AppearsIff(s, needle);
    }
  }

  predicate IsPrivateKey(key: string) {
    exists words | words in PRIVATE_WORDS :: Contains(KeyTokens.Tokens(key), words)
  }

  predicate IsClaim(key: string, child: Json) {
    child == JBool(true) && Lower(key) in CLAIM_KEYS
  }

  /** A node gives something away: by a key, a claim or a text. */
  predicate IsLeak(v: Json) {
    match v
    case JObject(fields) => exists k | k in fields :: !IsClean(k, fields[k])
    case JStr(s) => exists needle | needle in FORBIDDEN_TEXT :: Appears(s, needle)
    case _ => false
  }

  lemma FlaggedIff(key: string)
    ensures KeyTokens.HasPattern(key, FORBIDDEN_KEY_PATTERNS) <==> IsPrivateKey(key)
  {
    PatternsAreWords();
  }

  predicate IsClean(key: string, child: Json) { !IsPrivateKey(key) && !IsClaim(key, child) }

  lemma CleanFieldIff(key: string, child: Json)
    ensures CleanField(key, child) <==> IsClean(key, child)
  {
    FlaggedIff(key);
  }

  lemma CleanNodeIff(v: Json)
    ensures CleanNode(v, false) <==> !IsLeak(v)
  {
    match v
    case JObject(fields) =>
      forall k | k in fields ensures CleanField(k, fields[k]) <==> IsClean(k, fields[k]) { CleanFieldIff(k, fields[k]); }
    case JStr(s) => PrivateTextIff(s);
    case _ =>
  }

  /** No node at any depth gives anything away. */
  ghost predicate NothingLeaks(v: Json) {
    forall path: seq<Step> | At(v, path).Some? :: !IsLeak(At(v, path).value)
  }

  /** The scan accepts exactly the trees that give nothing away. */
  lemma AcceptsIffNothingLeaks(v: Json)
    ensures Accepts(v) <==> NothingLeaks(v)
  {
    AcceptsIffCleanEverywhere(v);
    if NothingLeaks(v) {
      forall path: seq<Step> | At(v, path).Some? ensures CleanNode(At(v, path).value, false && path == []) {
        CleanNodeIff(At(v, path).value);
      }
    }
    if Accepts(v) {
      forall path: seq<Step> | At(v, path).Some? ensures !IsLeak(At(v, path).value) {
        assert CleanNode(At(v, path).value, false && path == []);
        CleanNodeIff(At(v, path).value);
      }
    }
  }

  // ----- keys in camel case -----

  /** The words of a forbidden key, as they may be spelled. */
  predicate IsSpelling(s: string, words: seq<string>)
    requires KeyBoundaries.AreWords(words)
  {
    IsSpelled(s, words) || s == KeyBoundaries.Camel(words) || s == KeyBoundaries.Pascal(words)
  }

  lemma SpellingTokens(s: string, words: seq<string>)
    requires KeyBoundaries.AreWords(words) && IsSpelling(s, words)
    ensures KeyTokens.Tokens(s) == words
  {
    if IsSpelled(s, words) { SpelledTokens(s, words); }
    KeyBoundaries.TokensOfCamel(words);
    KeyBoundaries.TokensOfPascal(words);
  }

  lemma PrivateWordsAreWords(words: seq<string>)
    requires words in PRIVATE_WORDS
    ensures KeyBoundaries.AreWords(words)
  {
    var key := WordsAreSpelled(words);
  }

  /** A tree is rejected if a key at any depth holds forbidden words, in snake case, camel case or
      with capitals, between two cuts of the key. */
  lemma SpelledForbiddenKeyIsRejected(v: Json, path: seq<Step>, key: string, i: nat, j: nat, words: seq<string>)
    requires At(v, path).Some? && At(v, path).value.JObject? && key in At(v, path).value.fields
    requires i < j <= |key| && KeyBoundaries.IsCut(key, i) && KeyBoundaries.IsCut(key, j)
    requires words in PRIVATE_WORDS && KeyBoundaries.AreWords(words) && IsSpelling(key[i..j], words)
    ensures !Accepts(v)
  {
    SpellingTokens(key[i..j], words);
    PatternsAreWords();
    assert words[0..|words|] == words && OccursAt(words, words, 0);
    KeyBoundaries.FlaggedBetweenCuts(key, i, j, FORBIDDEN_KEY_PATTERNS);
    assert !CleanField(key, At(v, path).value.fields[key]);
    if Accepts(v) {
      SubtreeIsAccepted(v, path);
    }
  }

  /** For one: "apiKey" is rejected wherever it stands. */
  lemma ApiKeyIsRejected(v: Json, path: seq<Step>)
    requires At(v, path).Some? && At(v, path).value.JObject? && "apiKey" in At(v, path).value.fields
    ensures !Accepts(v)
  {
    var words, key := ["api", "key"], "apiKey";
    PrivateWordsAreWords(words);
    assert key == KeyBoundaries.Camel(words) by { assert words[1..][1..] == []; }
    assert key[0..|key|] == key;
    SpelledForbiddenKeyIsRejected(v, path, key, 0, |key|, words);
  }
}
