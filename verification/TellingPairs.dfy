/** A quick way to see that a key or text is clean: every forbidden key, concept, text and
    claim contains a pair of adjacent characters that no fixed key or text of a benchmark
    record contains (or a space, which none contains either). */
module TellingPairs {
  import opened Chars
  import opened BenchmarkPrivacy
  import KeyTokens

  predicate Tells(a: char, b: char) {
    || (b == 'e' && (a == 'k' || a == 'n')) || (b == 'w' && a == 'a') || (b == 'd' && (a == 'o' || a == 'l'))
    || (b == 'v' && (a == 'g' || a == 'n')) || (b == 'w' && a == 's') || (b == 'r' && a == 'c') || (b == 'g' && a == 'r')
    || (a == 'a' && (b == 's' || b == 'i')) || (a == '/' && (b == 'p' || b == 's'))
  }

  predicate TellsAt(s: string, i: nat) {
    i < |s| && (s[i] == ' ' || (i + 1 < |s| && Tells(s[i], s[i + 1])))
  }

  predicate Quiet(s: string) { forall i | 0 <= i < |s| :: !TellsAt(s, i) }

  /** `s` is quiet from index `i` on, `before` standing before it. */
  predicate QuietTextFrom(s: string, i: nat, before: char)
    requires i <= |s|
    decreases |s| - i
  {
    i == |s| || (var c := LowerChar(s[i]); c != ' ' && !Tells(before, c) && QuietTextFrom(s, i + 1, c))
  }

  predicate IsNameChar(c: char) { 'a' <= c <= 'z' || '0' <= c <= '9' }

  /** So is a name in small letters, digits and underscores, passing over the latter. */
  predicate QuietNameFrom(s: string, i: nat, before: char)
    requires i <= |s|
    decreases |s| - i
  {
    i == |s| ||
    (if s[i] == '_' then QuietNameFrom(s, i + 1, before)
     else IsNameChar(s[i]) && !Tells(before, s[i]) && QuietNameFrom(s, i + 1, s[i]))
  }

  lemma QuietCons(before: char, s: string)
    requires Quiet(s) && before != ' ' && (s != "" ==> !Tells(before, s[0]))
    ensures Quiet([before] + s)
  {
    var t := [before] + s;
    forall i | 0 <= i < |t| ensures !TellsAt(t, i) {
      assert i > 0 ==> !TellsAt(s, i - 1);
    }
  }

  lemma {:induction false} QuietText(s: string, i: nat, before: char)
    requires i <= |s| && before != ' ' && QuietTextFrom(s, i, before)
    ensures Quiet([before] + Lower(s)[i..])
    decreases |s| - i
  {
    if i < |s| {
      QuietText(s, i + 1, LowerChar(s[i]));
      assert Lower(s)[i..] == [LowerChar(s[i])] + Lower(s)[i + 1..];
      QuietCons(before, Lower(s)[i..]);
    }
  }

  lemma {:induction false} QuietName(s: string, i: nat, before: char)
    requires i <= |s| && before != ' ' && QuietNameFrom(s, i, before)
    ensures Quiet([before] + LowerAlnum(s[i..]))
    decreases |s| - i
  {
    if i < |s| {
      assert s[i..][1..] == s[i + 1..];
      if s[i] == '_' {
        QuietName(s, i + 1, before);
        assert LowerAlnum(s[i..]) == "" + LowerAlnum(s[i + 1..]) == LowerAlnum(s[i + 1..]);
      } else {
        QuietName(s, i + 1, s[i]);
        QuietCons(before, [s[i]] + LowerAlnum(s[i + 1..]));
      }
    }
  }

  lemma QuietTail(s: string, t: string, c: char)
    requires Quiet(s) && s == [c] + t
    ensures Quiet(t)
  {
    forall i | 0 <= i < |t| ensures !TellsAt(t, i) {
      assert !TellsAt(s, i + 1);
    }
  }

  lemma QuietPart(whole: string, part: string)
    requires Quiet(whole) && Contains(whole, part)
    ensures Quiet(part)
  {
    var k :| 0 <= k <= |whole| && OccursAt(whole, part, k);
    forall i | 0 <= i < |part| ensures !TellsAt(part, i) {
      assert !TellsAt(whole, k + i) && part[i] == whole[k + i];
    }
  }

  // ----- everything forbidden tells -----

  predicate LettersTellAt(key: string, i: nat) {
    i + 1 < |key| && IsLower(key[i]) && IsLower(key[i + 1]) && Tells(key[i], key[i + 1])
  }

  lemma EarlyKeyTells(n: nat) returns (i: nat)
    requires n < 10
    ensures LettersTellAt(FORBIDDEN_KEYS[n], i)
  {
    i := [9, 10, 5, 1, 1, 1, 1, 2, 2, 4][n];
  }

  lemma LateKeyTells(n: nat) returns (i: nat)
    requires 10 <= n < |FORBIDDEN_KEYS|
    ensures LettersTellAt(FORBIDDEN_KEYS[n], i)
  {
    i := [1, 7, 7, 1, 1, 1, 1, 2, 2][n - 10];
  }

  lemma TokenTells(token: string)
    requires token in FORBIDDEN_KEY_TOKENS
    ensures !Quiet(token)
  {
    var n :| 0 <= n < |FORBIDDEN_KEY_TOKENS| && token == FORBIDDEN_KEY_TOKENS[n];
    assert TellsAt(token, [1, 5, 1, 1, 1, 2, 7, 7, 2][n]);
  }

  lemma ConceptTells(concept: string)
    requires concept in FORBIDDEN_COMPACT_KEY_CONCEPTS
    ensures !Quiet(concept)
  {
    var n :| 0 <= n < |FORBIDDEN_COMPACT_KEY_CONCEPTS| && concept == FORBIDDEN_COMPACT_KEY_CONCEPTS[n];
    assert TellsAt(concept, [8, 3, 9, 1, 2, 2, 2, 4, 4, 11, 7, 7][n]);
  }

  lemma TextTells(n: nat)
    requires n < |FORBIDDEN_TEXT|
    ensures !Quiet(Lower(FORBIDDEN_TEXT[n]))
  {
    var needle := FORBIDDEN_TEXT[n];
    var i := [4, 4, 0, 5, 1, 6, 0, 0][n];
    assert i < |needle| && (needle[i] == ' ' || Tells(LowerChar(needle[i]), LowerChar(needle[i + 1])));
    assert TellsAt(Lower(needle), i);
  }

  lemma ClaimTells(n: nat)
    requires n < |FORBIDDEN_CLAIMS|
    ensures !Quiet(FORBIDDEN_CLAIMS[n].0)
  {
    assert TellsAt(FORBIDDEN_CLAIMS[n].0, [2, 2, 4, 7, 7][n]);
  }

  // ----- so what is quiet is clean -----

  lemma QuietTextIsClean(s: string)
    requires Quiet(Lower(s))
    ensures CleanText(s)
  {
    forall n | 0 <= n < |FORBIDDEN_TEXT| ensures !Contains(Lower(s), Lower(FORBIDDEN_TEXT[n])) {
      TextTells(n);
      if Contains(Lower(s), Lower(FORBIDDEN_TEXT[n])) {
        QuietPart(Lower(s), Lower(FORBIDDEN_TEXT[n]));
      }
    }
    if n, i, j :| 0 <= n < |FORBIDDEN_CLAIMS| && 0 <= i <= |s| && 0 <= j <= |s| && ClaimAt(s, FORBIDDEN_CLAIMS[n], i, j) {
      ClaimTells(n);
      assert Contains(Lower(s), FORBIDDEN_CLAIMS[n].0);
      QuietPart(Lower(s), FORBIDDEN_CLAIMS[n].0);
    }
  }

  lemma {:induction false} ContainsPart(parts: seq<string>, part: string)
    requires part in parts
    ensures Contains(Concat(parts), part)
  {
    var i :| 0 <= i < |parts| && parts[i] == part;
    assert parts[i..i + 1] == [part] && OccursAt(parts, [part], i);
    ContainsConcat(parts, [part]);
    assert Concat([part]) == part + Concat([part][1..]) == part;
  }

  lemma {:induction false} DashesAppend(a: string, b: string)
    ensures DashesToUnderscores(a + b) == DashesToUnderscores(a) + DashesToUnderscores(b)
  {
    if a == "" {
      assert a + b == b;
    } else {
      assert (a + b)[1..] == a[1..] + b;
      DashesAppend(a[1..], b);
    }
  }

  /** Folding case and dashes keeps the letters and digits. */
  lemma {:induction false} SpellingKeepsAlnum(key: string)
    ensures LowerAlnum(DashesToUnderscores(Lower(key))) == LowerAlnum(key)
  {
    if key != "" {
      SpellingKeepsAlnum(key[1..]);
      var c := LowerChar(key[0]);
      assert Lower(key) == [c] + Lower(key[1..]);
      DashesAppend([c], Lower(key[1..]));
      var d := if c == '-' then '_' else c;
      assert DashesToUnderscores([c]) == [d] + DashesToUnderscores([c][1..]);
      var rest := DashesToUnderscores(Lower(key[1..]));
      assert ([d] + rest)[1..] == rest;
      assert LowerAlnum([d] + rest) == (if IsAlnum(d) then [LowerChar(d)] else "") + LowerAlnum(rest);
    }
  }

  lemma LettersTell(key: string, i: nat)
    requires LettersTellAt(key, i)
    ensures !Quiet(LowerAlnum(key))
  {
    var left, pair, right := key[..i], key[i..i + 2], key[i + 2..];
    assert key == left + pair + right;
    LowerAlnumConcat(left + pair, right);
    LowerAlnumConcat(left, pair);
    LowerAlnumOfAlnum(pair);
    var two := Lower(pair);
    assert two[0..2] == two && OccursAt(two, two, 0);
    ContainsInContext(two, two, LowerAlnum(left), LowerAlnum(right));
    assert TellsAt(two, 0);
    if Quiet(LowerAlnum(key)) {
      QuietPart(LowerAlnum(key), two);
    }
  }

  lemma QuietKeyIsClean(key: string, context: string)
    requires Quiet(LowerAlnum(key))
    ensures !ForbiddenKey(key, context)
  {
    SequenceCheckIsRedundant(key, context);
    TokensConcatenateToCompactKey(key);
    KeyTokens.ChunksCover(key);
    var compact := CompactKey(key);
    if IsForbiddenSpelling(key) {
      var spelling := DashesToUnderscores(Lower(key));
      var n :| 0 <= n < |FORBIDDEN_KEYS| && spelling == FORBIDDEN_KEYS[n];
      var i: nat;
      if n < 10 { i := EarlyKeyTells(n); } else { i := LateKeyTells(n); }
      LettersTell(spelling, i);
      SpellingKeepsAlnum(key);
    }
    if HasForbiddenToken(key) {
      var token :| token in NormalizedKeyTokens(key) && token in FORBIDDEN_KEY_TOKENS;
      ContainsPart(NormalizedKeyTokens(key), token);
      QuietPart(compact, token);
      TokenTells(token);
    }
    if HasForbiddenConcept(key) {
      var concept :| concept in FORBIDDEN_COMPACT_KEY_CONCEPTS && Contains(compact, concept);
      QuietPart(compact, concept);
      ConceptTells(concept);
    }
  }

  /** Clean in any context. */
  ghost predicate CleanKey(key: string) {
    forall context :: !ForbiddenKey(key, context)
  }

  lemma QuietKey(key: string)
    requires QuietNameFrom(key, 0, '_')
    ensures CleanKey(key)
  {
    QuietName(key, 0, '_');
    assert key[0..] == key;
    QuietTail(['_'] + LowerAlnum(key), LowerAlnum(key), '_');
    forall context ensures !ForbiddenKey(key, context) {
      QuietKeyIsClean(key, context);
    }
  }

  lemma QuietFixedText(s: string)
    requires QuietTextFrom(s, 0, '_')
    ensures Quiet(Lower(s))
  {
    QuietText(s, 0, '_');
    assert Lower(s)[0..] == Lower(s);
    QuietTail(['_'] + Lower(s), Lower(s), '_');
  }

  lemma FixedTextIsClean(s: string)
    requires QuietTextFrom(s, 0, '_')
    ensures CleanText(s)
  {
    QuietFixedText(s);
    QuietTextIsClean(s);
  }

  lemma {:induction false} QuietAppend(a: string, b: string)
    requires Quiet(a) && Quiet(b) && a != "" && b != "" && !Tells(a[|a| - 1], b[0])
    ensures Quiet(a + b)
  {
    forall i | 0 <= i < |a + b| ensures !TellsAt(a + b, i) {
      assert if i < |a| then !TellsAt(a, i) else !TellsAt(b, i - |a|);
    }
  }

  lemma JoinedTextIsClean(a: string, b: string)
    requires QuietTextFrom(a, 0, '_') && QuietTextFrom(b, 0, '_')
    requires a != "" && b != "" && !Tells(LowerChar(a[|a| - 1]), LowerChar(b[0]))
    ensures CleanText(a + b)
  {
    QuietFixedText(a);
    QuietFixedText(b);
    LowerAppend(a, b);
    QuietAppend(Lower(a), Lower(b));
    QuietTextIsClean(a + b);
  }
}
