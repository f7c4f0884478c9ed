/** The camel/snake tokeniser of runtime sample keys (qa/runtime_sample_common.py). */
module KeyTokens {
  import opened Wrappers
  import opened Chars

  // ----- the pattern, alternative by alternative; each matches at the front of `s` -----

  /** The lookahead of the first alternative: a capitalised word, a digit or the end. */
  predicate EndsAcronym(rest: string) {
    rest == "" || IsDigit(rest[0]) || (|rest| >= 2 && IsUpper(rest[0]) && IsLower(rest[1]))
  }

  /** Greedy capitals, given back one by one until the lookahead holds. */
  function Backtrack(s: string, n: nat): Option<nat>
    requires n <= |s|
  {
    if n == 0 then None else if EndsAcronym(s[n..]) then Some(n) else Backtrack(s, n - 1)
  }

  function Acronym(s: string): Option<nat> { Backtrack(s, Span(s, IsUpper)) }

  function Word(s: string): Option<nat>
    requires s != ""
  {
    var first := if IsUpper(s[0]) then 1 else 0;
    var n := Span(s[first..], IsLower);
    if n == 0 then None else Some(first + n)
  }

  function Number(s: string): Option<nat> {
    var n := Span(s, IsDigit);
    if n == 0 then None else Some(n)
  }

  function MatchAt(s: string): (r: Option<nat>)
    requires s != ""
  {
    if Acronym(s).Some? then Acronym(s) else if Word(s).Some? then Word(s) else Number(s)
  }

  /** All matches in a chunk, left to right; a character no match starts at is skipped. */
  function Matches(s: string): seq<string>
    decreases |s|
  {
    if s == "" then [] else
      match MatchAt(s)
      case Some(n) => if 0 < n <= |s| then [s[..n]] + Matches(s[n..]) else Matches(s[1..])
      case None => Matches(s[1..])
  }

  /** The non-empty chunks between runs of other characters. */
  function Chunks(key: string): seq<string>
    decreases |key|
  {
    if key == "" then []
    else if !IsAlnum(key[0]) then Chunks(key[1..])
    else
      var n := Span(key, IsAlnum);
      [key[..n]] + Chunks(key[n..])
  }

  function LowerAll(parts: seq<string>): seq<string> {
    if parts == [] then [] else [Lower(parts[0])] + LowerAll(parts[1..])
  }

  function TokensOf(chunks: seq<string>): seq<string> {
    if chunks == [] then [] else LowerAll(Matches(chunks[0])) + TokensOf(chunks[1..])
  }

  function Tokens(key: string): seq<string> { TokensOf(Chunks(key)) }

  lemma {:induction false} TokensOfAppend(a: seq<string>, b: seq<string>)
    ensures TokensOf(a + b) == TokensOf(a) + TokensOf(b)
  {
    if a == [] {
      assert a + b == b;
    } else {
      assert (a + b)[1..] == a[1..] + b;
      TokensOfAppend(a[1..], b);
    }
  }

  method PrivateKeyTokens(key: string) returns (tokens: seq<string>)
    ensures tokens == Tokens(key)
  {
    tokens := [];
    var chunks := Chunks(key);
    for i := 0 to |chunks|
      invariant tokens == TokensOf(chunks[..i])
    {
      tokens := tokens + LowerAll(Matches(chunks[i]));
      TokensOfAppend(chunks[..i], [chunks[i]]);
      assert chunks[..i + 1] == chunks[..i] + [chunks[i]];
      assert TokensOf([chunks[i]]) == LowerAll(Matches(chunks[i]));
    }
    assert chunks[..|chunks|] == chunks;
  }

  // ----- losslessness -----

  /** At every position of a chunk some alternative matches, all letters or all digits. */
  lemma MatchAtCovers(s: string)
    requires s != "" && All(s, IsAlnum)
    ensures MatchAt(s).Some? && 0 < MatchAt(s).value <= |s|
    ensures All(s[..MatchAt(s).value], IsLetter) || All(s[..MatchAt(s).value], IsDigit)
  {
    if IsUpper(s[0]) {
      CapitalsCovered(s, Span(s, IsUpper));
    } else if IsDigit(s[0]) {
      assert Span(s[0..], IsLower) == 0;
    } else {
      assert s[0..] == s;
    }
  }

  lemma CapitalsCovered(s: string, n: nat)
    requires s != "" && All(s, IsAlnum) && IsUpper(s[0]) && n == Span(s, IsUpper)
    ensures MatchAt(s).Some? && 0 < MatchAt(s).value <= |s| && All(s[..MatchAt(s).value], IsLetter)
  {
    if n == |s| || IsDigit(s[n]) {
      AcronymTakesAll(s, n);
      AllLetters(s, n);
    } else {
      NoAcronymBefore(s, n);
      if n >= 2 {
        AcronymGivesBack(s, n);
        AllLetters(s, n - 1);
      } else {
        CapitalisedWord(s);
      }
    }
  }

  lemma AllLetters(s: string, n: nat)
    requires n <= Span(s, IsUpper)
    ensures All(s[..n], IsLetter)
  {}

  lemma AcronymTakesAll(s: string, n: nat)
    requires 0 < n <= |s| && (n == |s| || IsDigit(s[n]))
    ensures Backtrack(s, n) == Some(n)
  {}

  lemma AcronymGivesBack(s: string, n: nat)
    requires 2 <= n < |s| && n == Span(s, IsUpper) && IsLower(s[n])
    ensures Backtrack(s, n - 1) == Some(n - 1)
  {
    assert s[n - 1] == s[..n][n - 1] && s[n - 1..][0] == s[n - 1] && s[n - 1..][1] == s[n];
  }

  lemma NoAcronymBefore(s: string, n: nat)
    requires 0 < n < |s| && IsLower(s[n])
    ensures Backtrack(s, n) == Backtrack(s, n - 1)
  {}

  lemma CapitalisedWord(s: string)
    requires |s| >= 2 && IsUpper(s[0]) && IsLower(s[1])
    ensures Word(s).Some? && Word(s).value <= |s| && All(s[..Word(s).value], IsLetter)
  {}

  predicate IsToken(t: string) {
    t != "" && (All(t, IsLower) || All(t, IsDigit))
  }

  lemma FirstMatch(s: string) returns (front: string, back: string)
    requires s != "" && All(s, IsAlnum)
    ensures front != "" && s == front + back && All(back, IsAlnum)
    ensures All(front, IsLetter) || All(front, IsDigit)
    ensures LowerAll(Matches(s)) == [Lower(front)] + LowerAll(Matches(back))
  {
    MatchAtCovers(s);
    front, back := s[..MatchAt(s).value], s[MatchAt(s).value..];
    assert Matches(s) == [front] + Matches(back);
    assert ([front] + Matches(back))[1..] == Matches(back);
  }

  lemma {:induction false} MatchesPartition(s: string)
    requires All(s, IsAlnum)
    ensures Concat(LowerAll(Matches(s))) == Lower(s)
    ensures forall t | t in LowerAll(Matches(s)) :: IsToken(t)
    decreases |s|
  {
    if s != "" {
      var front, back := FirstMatch(s);
      MatchesPartition(back);
      MatchIsToken(front);
      LowerAppend(front, back);
      assert ([Lower(front)] + LowerAll(Matches(back)))[1..] == LowerAll(Matches(back));
    }
  }

  lemma MatchIsToken(m: string)
    requires m != "" && (All(m, IsLetter) || All(m, IsDigit))
    ensures IsToken(Lower(m))
  {}

  lemma {:induction false} ChunksCover(key: string)
    ensures forall c | c in Chunks(key) :: c != "" && All(c, IsAlnum)
    ensures Concat(LowerAll(Chunks(key))) == LowerAlnum(key)
    decreases |key|
  {
    if key != "" {
      if !IsAlnum(key[0]) {
        ChunksCover(key[1..]);
      } else {
        var n := Span(key, IsAlnum);
        var front, back := key[..n], key[n..];
        ChunksCover(back);
        assert LowerAlnum(key) == Lower(front) + LowerAlnum(back) by {
          assert key == front + back;
          LowerAlnumConcat(front, back);
          LowerAlnumOfAlnum(front);
        }
        FirstChunk(key, n);
        assert ([front] + Chunks(back))[1..] == Chunks(back);
      }
    }
  }

  lemma {:induction false} TokensOfPartition(chunks: seq<string>)
    requires forall c | c in chunks :: All(c, IsAlnum)
    ensures Concat(TokensOf(chunks)) == Concat(LowerAll(chunks))
    ensures forall t | t in TokensOf(chunks) :: IsToken(t)
  {
    if chunks != [] {
      MatchesPartition(chunks[0]);
      TokensOfPartition(chunks[1..]);
      ConcatAppend(LowerAll(Matches(chunks[0])), TokensOf(chunks[1..]));
    }
  }

  /** Lossless: the tokens of any key concatenate to its letters and digits, lowercased
      and in order, and each token is a non-empty run of letters or of digits. */
  lemma TokensAreLossless(key: string)
    ensures Concat(Tokens(key)) == LowerAlnum(key)
    ensures forall t | t in Tokens(key) :: IsToken(t)
  {
    ChunksCover(key);
    TokensOfPartition(Chunks(key));
  }

  // ----- homomorphism -----

  lemma {:induction false} SpanStops(a: string, b: string, p: char -> bool)
    requires b != "" && !p(b[0])
    ensures Span(a + b, p) == Span(a, p)
    decreases |a|
  {
    if a == "" {
      assert a + b == b;
    } else {
      assert (a + b)[1..] == a[1..] + b;
      SpanStops(a[1..], b, p);
    }
  }

  lemma {:induction false} ChunksAppend(a: string, sep: char, b: string)
    requires !IsAlnum(sep)
    ensures Chunks(a + ([sep] + b)) == Chunks(a) + Chunks(b)
    decreases |a|
  {
    var rest := [sep] + b;
    if a == "" {
      assert a + rest == rest && rest[1..] == b;
    } else if !IsAlnum(a[0]) {
      assert (a + rest)[1..] == a[1..] + rest;
      ChunksAppend(a[1..], sep, b);
    } else {
      var n := Span(a, IsAlnum);
      ChunksAppend(a[n..], sep, b);
      assert Chunks(a + rest) == [a[..n]] + Chunks(a[n..] + rest) by {
        SpanStops(a, rest, IsAlnum);
        Sliced(a, rest, n);
        FirstChunk(a + rest, n);
      }
      assert Chunks(a) == [a[..n]] + Chunks(a[n..]) by { FirstChunk(a, n); }
    }
  }

  lemma FirstChunk(key: string, n: nat)
    requires key != "" && IsAlnum(key[0]) && n == Span(key, IsAlnum)
    ensures Chunks(key) == [key[..n]] + Chunks(key[n..])
  {}

  lemma Sliced(a: string, b: string, n: nat)
    requires n <= |a|
    ensures (a + b)[..n] == a[..n] && (a + b)[n..] == a[n..] + b
  {}

  /** Tokenising turns a separator into concatenation. */
  lemma TokensAppend(a: string, sep: char, b: string)
    requires !IsAlnum(sep)
    ensures Tokens(a + [sep] + b) == Tokens(a) + Tokens(b)
  {
    assert a + [sep] + b == a + ([sep] + b);
    ChunksAppend(a, sep, b);
    TokensOfAppend(Chunks(a), Chunks(b));
  }

  // ----- round trip -----

  /** The words of a snake-case key, joined by underscores. */
  function Snake(words: seq<string>): string {
    if words == [] then "" else if |words| == 1 then words[0] else words[0] + "_" + Snake(words[1..])
  }

  lemma LowerOfToken(t: string)
    requires IsToken(t)
    ensures Lower(t) == t
  {}

  lemma TokenIsOneToken(t: string)
    requires IsToken(t)
    ensures Tokens(t) == [t]
  {
    SpanAll(t, IsAlnum);
    assert Chunks(t[|t|..]) == [] && t[..|t|] == t;
    assert Chunks(t) == [t];
    if All(t, IsLower) {
      SpanAll(t, IsLower);
      assert t[0..] == t;
      assert MatchAt(t) == Some(|t|);
    } else {
      SpanAll(t, IsDigit);
      assert Span(t[0..], IsLower) == 0;
      assert MatchAt(t) == Some(|t|);
    }
    assert Matches(t) == [t] + Matches("");
    LowerOfToken(t);
    assert LowerAll([t]) == [t];
    assert TokensOf([t]) == LowerAll(Matches(t)) + TokensOf([]);
  }

  lemma {:induction false} TokensOfSnake(tokens: seq<string>)
    requires forall t | t in tokens :: IsToken(t)
    ensures Tokens(Snake(tokens)) == tokens
  {
    if |tokens| == 1 {
      TokenIsOneToken(tokens[0]);
    } else if |tokens| > 1 {
      TokenIsOneToken(tokens[0]);
      TokensOfSnake(tokens[1..]);
      TokensAppend(tokens[0], '_', Snake(tokens[1..]));
    }
  }

  /** Round trip: tokenising the tokens joined by underscores gives the same tokens. */
  lemma RetokenisingIsIdentity(key: string)
    ensures Tokens(Snake(Tokens(key))) == Tokens(key)
  {
    TokensAreLossless(key);
    TokensOfSnake(Tokens(key));
  }

  // ----- patterns -----

  method ContainsPattern(tokens: seq<string>, pattern: seq<string>) returns (found: bool)
    ensures found <==> Contains(tokens, pattern)
  {
    if |pattern| > |tokens| { return false; }
    var limit := |tokens| - |pattern| + 1;
    for index := 0 to limit
      invariant forall i | 0 <= i < index :: !OccursAt(tokens, pattern, i)
    {
      if tokens[index..index + |pattern|] == pattern {
        assert OccursAt(tokens, pattern, index);
        return true;
      }
    }
    return false;
  }

  predicate HasPattern(key: string, patterns: set<seq<string>>) {
    exists pattern | pattern in patterns :: Contains(Tokens(key), pattern)
  }

  /** A flagged key stays flagged behind any prefix and before any suffix set off by a
      character that is neither letter nor digit. */
  lemma FlaggedKeyStaysFlagged(key: string, before: string, after: string, sep: char, patterns: set<seq<string>>)
    requires !IsAlnum(sep) && HasPattern(key, patterns)
    ensures HasPattern(before + [sep] + key, patterns) && HasPattern(key + [sep] + after, patterns)
    ensures HasPattern(before + [sep] + key + [sep] + after, patterns)
  {
    var pattern :| pattern in patterns && Contains(Tokens(key), pattern);
    FlaggedBehind(key, before, sep, pattern);
    FlaggedBefore(key, after, sep, pattern);
    FlaggedBefore(before + [sep] + key, after, sep, pattern);
  }

  lemma FlaggedBehind(key: string, before: string, sep: char, pattern: seq<string>)
    requires !IsAlnum(sep) && Contains(Tokens(key), pattern)
    ensures Contains(Tokens(before + [sep] + key), pattern)
  {
    TokensAppend(before, sep, key);
    ContainsInContext(Tokens(key), pattern, Tokens(before), []);
    assert Tokens(before) + Tokens(key) + [] == Tokens(before) + Tokens(key);
  }

  lemma FlaggedBefore(key: string, after: string, sep: char, pattern: seq<string>)
    requires !IsAlnum(sep) && Contains(Tokens(key), pattern)
    ensures Contains(Tokens(key + [sep] + after), pattern)
  {
    TokensAppend(key, sep, after);
    ContainsInContext(Tokens(key), pattern, [], Tokens(after));
    assert [] + Tokens(key) + Tokens(after) == Tokens(key) + Tokens(after);
  }
}
