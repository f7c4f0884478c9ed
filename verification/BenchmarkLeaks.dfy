/** What the scan of benchmark records rejects, told by the characters of keys and texts alone. */
module BenchmarkLeaks {
  import opened Wrappers
  import opened Chars
  import opened JsonValue
  import opened BenchmarkPrivacy
  import BenchmarkKeys
  import KeyTokens

  // ----- keys -----

  /** `key` is `name` up to case, dashes standing for underscores. */
  predicate IsSpelled(key: string, name: string) {
    |key| == |name| && forall i | 0 <= i < |key| :: name[i] == if key[i] == '-' then '_' else LowerChar(key[i])
  }

  /** The key is spelled like a forbidden one, or one of its pieces is a forbidden token, or its
      letters and digits hold a forbidden concept. */
  predicate IsPrivateKey(key: string) {
    || (exists name | name in FORBIDDEN_KEYS :: IsSpelled(key, name))
    || (exists token | token in FORBIDDEN_KEY_TOKENS :: BenchmarkKeys.IsPieceOf(key, token))
    || (exists concept | concept in FORBIDDEN_COMPACT_KEY_CONCEPTS :: Contains(LowerAlnum(key), concept))
  }

  lemma {:induction false} DashesAre(s: string)
    ensures |DashesToUnderscores(s)| == |s|
    ensures forall i | 0 <= i < |s| :: DashesToUnderscores(s)[i] == if s[i] == '-' then '_' else s[i]
  {
    if s != "" { DashesAre(s[1..]); }
  }

  lemma SpellingIff(key: string)
    ensures IsForbiddenSpelling(key) <==> exists name | name in FORBIDDEN_KEYS :: IsSpelled(key, name)
  {
    var plain := DashesToUnderscores(Lower(key));
    DashesAre(Lower(key));
    forall name | name in FORBIDDEN_KEYS ensures plain == name <==> IsSpelled(key, name) {}
    if IsForbiddenSpelling(key) { assert plain in FORBIDDEN_KEYS && IsSpelled(key, plain); }
  }

  lemma TokenIff(key: string)
    ensures HasForbiddenToken(key) <==> exists token | token in FORBIDDEN_KEY_TOKENS :: BenchmarkKeys.IsPieceOf(key, token)
  {
    forall token ensures token in NormalizedKeyTokens(key) <==> BenchmarkKeys.IsPieceOf(key, token) {
      BenchmarkKeys.TokenIffPiece(key, token);
    }
  }

  /** The compact form of a key is its letters and digits, lowercased. */
  lemma CompactIsLowerAlnum(key: string)
    ensures CompactKey(key) == LowerAlnum(key)
  {
    KeyTokens.ChunksCover(key);
  }

  /** Exactly which keys are forbidden. */
  lemma ForbiddenKeyIff(key: string, context: string)
    ensures ForbiddenKey(key, context) <==> IsPrivateKey(key) && !(context == "record" && key in ROOT_RECORD_CONTROL_KEYS)
  {
    SequenceCheckIsRedundant(key, context);
    SpellingIff(key);
    TokenIff(key);
    CompactIsLowerAlnum(key);
  }

  // ----- texts -----

  predicate IsWordChar(c: char) { IsAlnum(c) || c == '_' }

  predicate IsGap(s: string) { s != "" && forall k | 0 <= k < |s| :: IsSpace(s[k]) || s[k] == '_' || s[k] == '-' }

  predicate IsInAnyCase(s: string, word: string) {
    |s| == |word| && forall k | 0 <= k < |s| :: LowerChar(s[k]) == word[k]
  }

  /** The two words of the claim stand in the text at `i` and `j`, in any case, with a gap
      between them, and neither runs on. */
  predicate IsClaim(s: string, claim: (string, string), i: nat, j: nat) {
    && i + |claim.0| <= j && j + |claim.1| <= |s|
    && IsInAnyCase(s[i..i + |claim.0|], claim.0) && (i == 0 || !IsWordChar(s[i - 1]))
    && IsGap(s[i + |claim.0|..j])
    && IsInAnyCase(s[j..j + |claim.1|], claim.1) && (j + |claim.1| == |s| || !IsWordChar(s[j + |claim.1|]))
  }

  predicate MakesClaim(s: string) {
    exists n, i, j | 0 <= n < |FORBIDDEN_CLAIMS| && 0 <= i <= |s| && 0 <= j <= |s| :: IsClaim(s, FORBIDDEN_CLAIMS[n], i, j)
  }

  lemma ClaimsAreWords(n: nat)
    requires n < |FORBIDDEN_CLAIMS|
    ensures IsPairOfWords(FORBIDDEN_CLAIMS[n])
  {}

  predicate IsLowered(s: string, lowered: string) {
    |lowered| == |s| && forall k | 0 <= k < |s| :: lowered[k] == LowerChar(s[k])
  }

  lemma SliceInAnyCase(s: string, lowered: string, word: string, i: nat)
    requires IsLowered(s, lowered) && i + |word| <= |s|
    ensures OccursAt(lowered, word, i) <==> IsInAnyCase(s[i..i + |word|], word)
  {
    LoweredInAnyCase(lowered[i..i + |word|], s[i..i + |word|], word);
  }

  lemma LoweredInAnyCase(lowered: string, part: string, word: string)
    requires |lowered| == |part| == |word| && forall k | 0 <= k < |part| :: lowered[k] == LowerChar(part[k])
    ensures lowered == word <==> IsInAnyCase(part, word)
  {}

  /** Where a word of letters stands, a boundary is where no word character comes before it. */
  lemma WordStarts(s: string, a: string, word: string, i: nat)
    requires i + |a| <= |s| && s[i..i + |a|] == a && IsInAnyCase(a, word) && word != "" && IsLower(word[0])
    ensures IsBoundary(s, i) <==> i == 0 || !IsWordChar(s[i - 1])
  {
    assert s[i] == a[0] && LowerChar(a[0]) == word[0];
  }

  lemma WordEnds(s: string, b: string, word: string, j: nat)
    requires j + |b| <= |s| && s[j..j + |b|] == b && IsInAnyCase(b, word) && word != "" && IsLower(word[|word| - 1])
    ensures IsBoundary(s, j + |b|) <==> j + |b| == |s| || !IsWordChar(s[j + |b|])
  {
    assert s[j + |b| - 1] == b[|b| - 1] && LowerChar(b[|b| - 1]) == word[|word| - 1];
  }

  predicate IsPairOfWords(claim: (string, string)) {
    claim.0 != "" && IsLower(claim.0[0]) && claim.1 != "" && IsLower(claim.1[|claim.1| - 1])
  }

  lemma GapIs(s: string, k: nat, j: nat)
    requires k <= j <= |s|
    ensures IsGap(s[k..j]) <==> k < j && forall m | k <= m < j :: IsSpace(s[m]) || s[m] == '_' || s[m] == '-'
  {
    var gap := s[k..j];
    if IsGap(gap) {
      forall m | k <= m < j ensures IsSpace(s[m]) || s[m] == '_' || s[m] == '-' { assert s[m] == gap[m - k]; }
    }
  }

  lemma StartIff(s: string, lowered: string, word: string, i: nat)
    requires IsLowered(s, lowered) && i + |word| <= |s| && word != "" && IsLower(word[0])
    ensures IsBoundary(s, i) && OccursAt(lowered, word, i)
      <==> IsInAnyCase(s[i..i + |word|], word) && (i == 0 || !IsWordChar(s[i - 1]))
  {
    SliceInAnyCase(s, lowered, word, i);
    if IsInAnyCase(s[i..i + |word|], word) { WordStarts(s, s[i..i + |word|], word, i); }
  }

  lemma EndIff(s: string, lowered: string, word: string, j: nat)
    requires IsLowered(s, lowered) && j + |word| <= |s| && word != "" && IsLower(word[|word| - 1])
    ensures IsBoundary(s, j + |word|) && OccursAt(lowered, word, j)
      <==> IsInAnyCase(s[j..j + |word|], word) && (j + |word| == |s| || !IsWordChar(s[j + |word|]))
  {
    SliceInAnyCase(s, lowered, word, j);
    if IsInAnyCase(s[j..j + |word|], word) { WordEnds(s, s[j..j + |word|], word, j); }
  }

  /** A match of a claim pattern, by what stands in the text. */
  lemma ClaimAtIff(s: string, claim: (string, string), i: nat, j: nat)
    requires IsPairOfWords(claim)
    ensures ClaimAt(s, claim, i, j) <==> IsClaim(s, claim, i, j)
  {
    if i + |claim.0| <= j && j + |claim.1| <= |s| { ClaimFitsIff(s, Lower(s), claim, i, j); }
  }

  lemma ClaimFitsIff(s: string, lowered: string, claim: (string, string), i: nat, j: nat)
    requires IsLowered(s, lowered) && IsPairOfWords(claim) && i + |claim.0| <= j && j + |claim.1| <= |s|
    ensures ClaimIn(s, lowered, claim, i, j) <==> IsClaim(s, claim, i, j)
  {
    StartIff(s, lowered, claim.0, i);
    EndIff(s, lowered, claim.1, j);
    GapIs(s, i + |claim.0|, j);
  }

  /** The claim patterns match exactly the texts that make a claim. */
  lemma ClaimIff(s: string)
    ensures HasClaim(s) <==> MakesClaim(s)
  {
    forall n: nat, i: nat, j: nat | n < |FORBIDDEN_CLAIMS|
      ensures ClaimAt(s, FORBIDDEN_CLAIMS[n], i, j) <==> IsClaim(s, FORBIDDEN_CLAIMS[n], i, j)
    {
      ClaimsAreWords(n);
      ClaimAtIff(s, FORBIDDEN_CLAIMS[n], i, j);
    }
  }

  ghost predicate IsPrivateText(s: string) {
    (exists i | 0 <= i < |FORBIDDEN_TEXT| :: Appears(s, FORBIDDEN_TEXT[i])) || MakesClaim(s)
  }

  lemma CleanTextIff(s: string)
    ensures CleanText(s) <==> !IsPrivateText(s)
  {
    ClaimIff(s);
    forall i | 0 <= i < |FORBIDDEN_TEXT| ensures Contains(Lower(s), Lower(FORBIDDEN_TEXT[i])) <==> Appears(s, FORBIDDEN_TEXT[i]) {
      AppearsIff(s, FORBIDDEN_TEXT[i]);
    }
  }

  // ----- trees -----

  /** A node gives something away, unless its keys are exempt. */
  ghost predicate IsLeak(v: Json, exempt: bool) {
    match v
    case JNonFinite => true
    case JStr(s) => IsPrivateText(s)
    case JObject(fields) => exists k | k in fields :: IsPrivateKey(k) && !(exempt && k in ROOT_RECORD_CONTROL_KEYS)
    case _ => false
  }

  lemma CleanNodeIff(v: Json, exempt: bool)
    ensures CleanNode(v, exempt) <==> !IsLeak(v, exempt)
  {
    match v
    case JStr(s) => CleanTextIff(s);
    case JObject(fields) =>
      forall k | k in fields ensures ForbiddenKey(k, "") <==> IsPrivateKey(k) { ForbiddenKeyIff(k, ""); }
    case _ =>
  }

  ghost predicate NothingLeaks(v: Json, context: string) {
    forall path: seq<Step> | At(v, path).Some? :: !IsLeak(At(v, path).value, context == "record" && path == [])
  }

  /** The scan accepts exactly the trees in which no node gives anything away. */
  lemma AcceptsIffNothingLeaks(v: Json, context: string)
    ensures Accepts(v, context) <==> NothingLeaks(v, context)
  {
    AcceptsIffCleanEverywhere(v, context);
    if NothingLeaks(v, context) {
      forall path: seq<Step> | At(v, path).Some? ensures CleanNode(At(v, path).value, context == "record" && path == []) {
        CleanNodeIff(At(v, path).value, context == "record" && path == []);
      }
    }
    if Accepts(v, context) {
      forall path: seq<Step> | At(v, path).Some? ensures !IsLeak(At(v, path).value, context == "record" && path == []) {
        CleanNodeIff(At(v, path).value, context == "record" && path == []);
      }
    }
  }

  /** A tree is rejected if a piece of some key, at any depth, is a forbidden token, unless the
      key is exempt at the top of the record. */
  lemma SetOffTokenIsRejected(v: Json, context: string, path: seq<Step>, key: string, i: nat, j: nat)
    requires At(v, path).Some? && At(v, path).value.JObject? && key in At(v, path).value.fields
    requires BenchmarkKeys.IsPiece(key, i, j) && Lower(key[i..j]) in FORBIDDEN_KEY_TOKENS
    requires !(context == "record" && path == [] && key in ROOT_RECORD_CONTROL_KEYS)
    ensures !Accepts(v, context)
  {
    assert BenchmarkKeys.IsPieceOf(key, Lower(key[i..j]));
    assert IsLeak(At(v, path).value, context == "record" && path == []);
    AcceptsIffNothingLeaks(v, context);
  }

  /** For one: "authToken" is rejected wherever it stands. */
  lemma AuthTokenIsRejected(v: Json, context: string, path: seq<Step>)
    requires At(v, path).Some? && At(v, path).value.JObject? && "authToken" in At(v, path).value.fields
    ensures !Accepts(v, context)
  {
    var key := "authToken";
    assert key[4..9] == "Token" && Lower("Token") == "token";
    LastWordIsPiece(key, 4);
    SetOffTokenIsRejected(v, context, path, key, 4, 9);
  }

  lemma LastWordIsPiece(key: string, i: nat)
    requires 0 < i < |key| && IsLower(key[i - 1]) && IsUpper(key[i]) && forall k | i < k < |key| :: IsLower(key[k])
    ensures BenchmarkKeys.IsPiece(key, i, |key|)
  {
    assert BenchmarkKeys.IsHump(key, i);
  }
}
