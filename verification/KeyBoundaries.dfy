/** Where the tokeniser of runtime sample keys cuts a key, told by the characters around the
    place alone. */
module KeyBoundaries {
  import opened Wrappers
  import opened Chars
  import opened KeyTokens

  /** A change of case or kind between two letters or digits: lower then upper, letter then
      digit or digit then letter, or upper then upper with a lower next. */
  predicate IsChange(key: string, i: nat)
    requires 0 < i < |key|
  {
    || (IsLower(key[i - 1]) && IsUpper(key[i]))
    || (IsLetter(key[i - 1]) && IsDigit(key[i]))
    || (IsDigit(key[i - 1]) && IsLetter(key[i]))
    || (IsUpper(key[i - 1]) && IsUpper(key[i]) && i + 1 < |key| && IsLower(key[i + 1]))
  }

  /** The key is cut at `i`: at its ends, next to a separator, and at each such change. */
  predicate IsCut(key: string, i: nat)
    requires i <= |key|
  {
    i == 0 || i == |key| || !IsAlnum(key[i - 1]) || !IsAlnum(key[i]) || IsChange(key, i)
  }

  predicate IsWhole(key: string, m: nat)
    requires m <= |key|
  {
    forall i: nat | 0 < i < m :: !IsCut(key, i)
  }

  // ----- the first match ends at the first cut -----

  lemma AcronymEnds(s: string, n: nat)
    requires s != "" && All(s, IsAlnum) && IsUpper(s[0]) && n == Span(s, IsUpper)
    ensures
      var m := if n == |s| || IsDigit(s[n]) then n else if n >= 2 then n - 1 else 1 + Span(s[1..], IsLower);
      MatchAt(s) == Some(m) && m <= |s|
  {
    if n == |s| || IsDigit(s[n]) {
      AcronymTakesAll(s, n);
    } else {
      NoAcronymBefore(s, n);
      if n >= 2 { AcronymGivesBack(s, n); } else { CapitalisedWord(s); }
    }
  }

  lemma RunIsWhole(s: string, m: nat)
    requires All(s, IsAlnum) && IsRun(s, m)
    ensures IsWhole(s, m)
  {
    forall i: nat | 0 < i < m ensures !IsCut(s, i) {
      assert s[i] == s[..m][i] && s[i - 1] == s[..m][i - 1] && s[i] == s[1..m][i - 1];
      if i + 1 < m { assert s[i + 1] == s[..m][i + 1] && s[i + 1] == s[1..m][i]; }
      if i >= 2 { assert s[i - 1] == s[1..m][i - 2]; }
    }
  }

  /** The match is a run, and the run ends in a cut. */
  predicate IsRun(s: string, m: nat) {
    && 0 < m <= |s|
    && (All(s[..m], IsLower) || All(s[..m], IsDigit) || (IsUpper(s[0]) && All(s[1..m], IsLower))
        || (All(s[..m], IsUpper) && (m == |s| || !IsLower(s[m]))))
  }

  lemma CapitalsAreRun(s: string) returns (m: nat)
    requires s != "" && All(s, IsAlnum) && IsUpper(s[0])
    ensures MatchAt(s) == Some(m) && IsRun(s, m) && IsCut(s, m)
  {
    var n := Span(s, IsUpper);
    AcronymEnds(s, n);
    m := MatchAt(s).value;
    if n == |s| || IsDigit(s[n]) {
      assert s[m - 1] == s[..n][m - 1];
    } else if n >= 2 {
      assert s[m] == s[..n][m] && s[m - 1] == s[..n][m - 1] && All(s[..m], IsUpper);
    } else {
      var k := Span(s[1..], IsLower);
      assert s[1..m] == s[1..][..k];
      assert k > 0 ==> s[m - 1] == s[1..][..k][k - 1];
      assert m < |s| ==> s[m] == s[1..][k];
    }
  }

  lemma OthersAreRun(s: string) returns (m: nat)
    requires s != "" && All(s, IsAlnum) && !IsUpper(s[0])
    ensures MatchAt(s) == Some(m) && IsRun(s, m) && IsCut(s, m)
  {
    MatchAtCovers(s);
    m := MatchAt(s).value;
    assert s[0..] == s && s[m - 1] == s[..m][m - 1];
    if IsDigit(s[0]) { assert Span(s, IsLower) == 0; }
  }

  /** In a chunk, the match at the front ends at the first cut. */
  lemma FirstMatchIsWhole(s: string) returns (m: nat)
    requires s != "" && All(s, IsAlnum)
    ensures MatchAt(s) == Some(m) && 0 < m <= |s| && IsCut(s, m) && IsWhole(s, m)
  {
    if IsUpper(s[0]) { m := CapitalsAreRun(s); } else { m := OthersAreRun(s); }
    RunIsWhole(s, m);
  }

  /** A chunk is cut as the key around it is. */
  lemma ChunkIsCutAlike(key: string, n: nat, i: nat)
    requires n <= |key| && All(key[..n], IsAlnum) && (n < |key| ==> !IsAlnum(key[n])) && i <= n
    ensures IsCut(key[..n], i) <==> IsCut(key, i)
  {
    if 0 < i { assert key[i - 1] == key[..n][i - 1]; }
  }

  lemma FirstCutIsUnique(key: string, m: nat, k: nat)
    requires 0 < m <= |key| && 0 < k <= |key| && IsCut(key, m) && IsCut(key, k) && IsWhole(key, m) && IsWhole(key, k)
    ensures m == k
  {}

  lemma HeadOf(first: string, rest: seq<string>)
    ensures LowerAll([first] + rest) == [Lower(first)] + LowerAll(rest)
    ensures TokensOf([first] + rest) == LowerAll(Matches(first)) + TokensOf(rest)
  {
    assert ([first] + rest)[1..] == rest;
  }

  lemma MatchesOfChunk(key: string, n: nat, m: nat)
    requires 0 < m <= n <= |key| && MatchAt(key[..n]) == Some(m)
    ensures LowerAll(Matches(key[..n])) == [Lower(key[..m])] + LowerAll(Matches(key[m..n]))
  {
    var chunk := key[..n];
    assert chunk[..m] == key[..m] && chunk[m..] == key[m..n];
    HeadOf(key[..m], Matches(key[m..n]));
  }

  lemma TokensOfFirstChunk(key: string, n: nat)
    requires key != "" && IsAlnum(key[0]) && n == Span(key, IsAlnum)
    ensures Tokens(key) == LowerAll(Matches(key[..n])) + Tokens(key[n..])
  {
    FirstChunk(key, n);
    HeadOf(key[..n], Chunks(key[n..]));
  }

  lemma Regroup(all: seq<string>, first: string, more: seq<string>, rest: seq<string>, after: seq<string>)
    requires all == ([first] + more) + rest && after == more + rest
    ensures all == [first] + after
  {}

  lemma TokensOfChunk(key: string, n: nat, m: nat)
    requires key != "" && IsAlnum(key[0]) && n == Span(key, IsAlnum) && 0 < m <= n && MatchAt(key[..n]) == Some(m)
    ensures Tokens(key) == [Lower(key[..m])] + Tokens(key[m..])
  {
    TokensOfFirstChunk(key, n);
    MatchesOfChunk(key, n, m);
    TokensAfterMatch(key, n, m);
    Regroup(Tokens(key), Lower(key[..m]), LowerAll(Matches(key[m..n])), Tokens(key[n..]), Tokens(key[m..]));
  }

  lemma TokensAfterMatch(key: string, n: nat, m: nat)
    requires 0 < m <= n <= |key| && All(key[..n], IsAlnum) && (n < |key| ==> !IsAlnum(key[n]))
    ensures Tokens(key[m..]) == LowerAll(Matches(key[m..n])) + Tokens(key[n..])
  {
    var rest := key[m..];
    if m < n {
      assert rest == key[m..n] + key[n..];
      SpanIs(rest, n - m);
      FirstChunk(rest, n - m);
      assert rest[..n - m] == key[m..n] && rest[n - m..] == key[n..];
      assert ([key[m..n]] + Chunks(key[n..]))[1..] == Chunks(key[n..]);
    }
  }

  lemma SpanIs(s: string, n: nat)
    requires 0 < n <= |s| && All(s[..n], IsAlnum) && (n < |s| ==> !IsAlnum(s[n]))
    ensures Span(s, IsAlnum) == n && IsAlnum(s[0])
  {
    var m := Span(s, IsAlnum);
    assert forall k | 0 <= k < n :: s[k] == s[..n][k];
    assert forall k | 0 <= k < m :: s[k] == s[..m][k];
  }

  /** The first token of a key that starts with a letter or digit ends at the first cut. */
  lemma FirstToken(key: string, m: nat)
    requires key != "" && IsAlnum(key[0]) && 0 < m <= |key| && IsCut(key, m) && IsWhole(key, m)
    ensures Tokens(key) == [Lower(key[..m])] + Tokens(key[m..])
  {
    var n := Span(key, IsAlnum);
    var k := FirstMatchIsWhole(key[..n]);
    forall i: nat | i <= n ensures IsCut(key[..n], i) <==> IsCut(key, i) { ChunkIsCutAlike(key, n, i); }
    FirstCutIsUnique(key, m, k);
    TokensOfChunk(key, n, m);
  }

  lemma SeparatorIsSkipped(key: string)
    requires key != "" && !IsAlnum(key[0])
    ensures Tokens(key) == Tokens(key[1..])
  {}

  // ----- cutting -----

  /** What follows a cut is cut as before, and so is what precedes it. */
  lemma PartsAreCutAlike(key: string, i: nat)
    requires i <= |key| && IsCut(key, i)
    ensures forall j: nat | 0 < j < i :: IsCut(key[..i], j) <==> IsCut(key, j)
    ensures forall j: nat | 0 < j <= |key| - i :: IsCut(key[i..], j) <==> IsCut(key, i + j)
  {}

  /** Every cut cuts: the tokens of a key are those before the cut and those after it. */
  lemma {:induction false} TokensAreCut(key: string, i: nat)
    requires i <= |key| && IsCut(key, i)
    ensures Tokens(key) == Tokens(key[..i]) + Tokens(key[i..])
    decreases |key|
  {
    if i == 0 {
      assert key[..0] == "" && key[0..] == key;
    } else {
      var m := if IsAlnum(key[0]) then FirstCutOf(key) else 1;
      CutIsLater(key, m, i);
      TokensAreCut(key[m..], i - m);
      Slices(key, m, i);
      FirstPart(key, m);
      PartOfPrefix(key, m, i);
      FirstPart(key[..i], m);
      CutBehindFirst(Tokens(key), FirstTokens(key, m), Tokens(key[m..]), Tokens(key[..i]), Tokens(key[..i][m..]), Tokens(key[i..]));
    }
  }

  lemma Slices(key: string, m: nat, i: nat)
    requires 0 < m <= i <= |key|
    ensures key[m..][..i - m] == key[..i][m..] && key[m..][i - m..] == key[i..]
    ensures key[..i] != "" && key[..i][0] == key[0] && key[..i][..m] == key[..m]
  {}

  lemma CutBehindFirst(
      all: seq<string>, first: seq<string>, later: seq<string>, front: seq<string>, middle: seq<string>, rest: seq<string>)
    requires all == first + later && later == middle + rest && front == first + middle
    ensures all == front + rest
  {}

  function FirstTokens(key: string, m: nat): seq<string>
    requires 0 < m <= |key|
  {
    if IsAlnum(key[0]) then [Lower(key[..m])] else []
  }

  /** `m` ends the first token, or skips a separator. */
  predicate EndsFirst(key: string, m: nat) {
    0 < m <= |key| && if IsAlnum(key[0]) then IsCut(key, m) && IsWhole(key, m) else m == 1
  }

  lemma CutIsLater(key: string, m: nat, i: nat)
    requires EndsFirst(key, m) && 0 < i <= |key| && IsCut(key, i)
    ensures m <= i && IsCut(key[m..], i - m)
  {
    assert IsCut(key, m);
    PartsAreCutAlike(key, m);
  }

  lemma PartOfPrefix(key: string, m: nat, i: nat)
    requires EndsFirst(key, m) && m <= i <= |key| && IsCut(key, i)
    ensures EndsFirst(key[..i], m)
  {
    PartsAreCutAlike(key, i);
  }

  lemma FirstPart(key: string, m: nat)
    requires EndsFirst(key, m)
    ensures Tokens(key) == FirstTokens(key, m) + Tokens(key[m..])
  {
    if IsAlnum(key[0]) { FirstToken(key, m); } else { SeparatorIsSkipped(key); }
  }

  ghost function FirstCutOf(key: string): (m: nat)
    requires key != ""
    ensures 0 < m <= |key| && IsCut(key, m) && IsWhole(key, m)
  {
    FirstCutFrom(key, 1)
  }

  ghost function FirstCutFrom(key: string, i: nat): (m: nat)
    requires 0 < i <= |key| && IsWhole(key, i)
    ensures 0 < m <= |key| && IsCut(key, m) && IsWhole(key, m)
    decreases |key| - i
  {
    if IsCut(key, i) then i else FirstCutFrom(key, i + 1)
  }

  /** A piece of the key: letters and digits between two cuts, with no cut inside. */
  predicate IsPiece(key: string, a: nat, b: nat) {
    && a < b <= |key| && All(key[a..b], IsAlnum) && IsCut(key, a) && IsCut(key, b)
    && forall i: nat | a < i < b :: !IsCut(key, i)
  }

  /** Nothing else cuts: each piece, lowercased, is one token, and it stands between the tokens
      of what comes before and those of what comes after. */
  lemma PieceIsToken(key: string, a: nat, b: nat)
    requires IsPiece(key, a, b)
    ensures Tokens(key) == Tokens(key[..a]) + [Lower(key[a..b])] + Tokens(key[b..])
  {
    TokensAreCut(key, a);
    PartsAreCutAlike(key, a);
    var rest := key[a..];
    assert rest[0] == key[a..b][0];
    FirstToken(rest, b - a);
    assert rest[..b - a] == key[a..b] && rest[b - a..] == key[b..];
  }

  // ----- camel case -----

  predicate IsWord(w: string) { |w| >= 2 && All(w, IsLower) }

  predicate AreWords(words: seq<string>) { forall i | 0 <= i < |words| :: IsWord(words[i]) }

  function Capitalised(w: string): string
    requires IsWord(w)
  {
    [w[0] - 'a' + 'A'] + w[1..]
  }

  /** The words run together, each with a capital. */
  function Pascal(words: seq<string>): string
    requires AreWords(words)
  {
    if words == [] then "" else Capitalised(words[0]) + Pascal(words[1..])
  }

  /** The same, but for the first word. */
  function Camel(words: seq<string>): string
    requires AreWords(words)
  {
    if words == [] then "" else words[0] + Pascal(words[1..])
  }

  lemma WordIsWhole(key: string, first: string, w: string, words: seq<string>)
    requires IsWord(w) && AreWords(words) && (first == w || first == Capitalised(w)) && key == first + Pascal(words)
    ensures IsAlnum(key[0]) && IsCut(key, |w|) && IsWhole(key, |w|)
  {
    var n := |w|;
    assert forall i | 0 < i < n :: key[i] == w[i];
    assert key[0] == first[0];
    if n < |key| {
      assert words != [] && key[n] == Pascal(words)[0];
    }
  }

  lemma WordThenPascal(first: string, w: string, words: seq<string>)
    requires IsWord(w) && AreWords(words) && (first == w || first == Capitalised(w))
    ensures Tokens(first + Pascal(words)) == [w] + Tokens(Pascal(words))
  {
    var key := first + Pascal(words);
    WordIsWhole(key, first, w, words);
    FirstToken(key, |w|);
    LowerOfWord(first, w);
    assert key[..|w|] == first && key[|w|..] == Pascal(words);
  }

  lemma LowerOfWord(first: string, w: string)
    requires IsWord(w) && (first == w || first == Capitalised(w))
    ensures Lower(first) == w
  {}

  /** Round trip: words in camel case are cut back into the words. */
  lemma {:induction false} TokensOfPascal(words: seq<string>)
    requires AreWords(words)
    ensures Tokens(Pascal(words)) == words
  {
    if words != [] {
      WordThenPascal(Capitalised(words[0]), words[0], words[1..]);
      TokensOfPascal(words[1..]);
    }
  }

  lemma TokensOfCamel(words: seq<string>)
    requires AreWords(words)
    ensures Tokens(Camel(words)) == words
  {
    if words != [] {
      WordThenPascal(words[0], words[0], words[1..]);
      TokensOfPascal(words[1..]);
    }
  }

  /** A key is flagged if what stands between two of its cuts is. */
  lemma FlaggedBetweenCuts(key: string, i: nat, j: nat, patterns: set<seq<string>>)
    requires i < j <= |key| && IsCut(key, i) && IsCut(key, j) && HasPattern(key[i..j], patterns)
    ensures HasPattern(key, patterns)
  {
    var pattern :| pattern in patterns && Contains(Tokens(key[i..j]), pattern);
    TokensAreCutTwice(key, i, j);
    ContainsInContext(Tokens(key[i..j]), pattern, Tokens(key[..i]), Tokens(key[j..]));
  }

  lemma TokensAreCutTwice(key: string, i: nat, j: nat)
    requires i < j <= |key| && IsCut(key, i) && IsCut(key, j)
    ensures Tokens(key) == Tokens(key[..i]) + Tokens(key[i..j]) + Tokens(key[j..])
  {
    TokensAreCut(key, i);
    PartsAreCutAlike(key, i);
    TokensAreCut(key[i..], j - i);
    InnerSlices(key, i, j);
    InThree(Tokens(key), Tokens(key[..i]), Tokens(key[i..]), Tokens(key[i..j]), Tokens(key[j..]));
  }

  lemma InThree(all: seq<string>, a: seq<string>, rest: seq<string>, b: seq<string>, c: seq<string>)
    requires all == a + rest && rest == b + c
    ensures all == a + b + c
  {}

  lemma InnerSlices(key: string, i: nat, j: nat)
    requires i <= j <= |key|
    ensures key[i..][..j - i] == key[i..j] && key[i..][j - i..] == key[j..]
  {}
}
