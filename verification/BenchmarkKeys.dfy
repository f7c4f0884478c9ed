/** Where the tokeniser of benchmark record keys cuts a key, and which keys are forbidden, told
    by the characters of the key alone. */
module BenchmarkKeys {
  import opened Chars
  import opened KeyTokens
  import opened BenchmarkPrivacy
  import KeyBoundaries

  /** A capital after a small letter or a digit. */
  predicate IsHump(key: string, i: nat)
    requires 0 < i < |key|
  {
    (IsLower(key[i - 1]) || IsDigit(key[i - 1])) && IsUpper(key[i])
  }

  /** The key is cut at `i`: at its ends, next to a separator, and at each hump. */
  predicate IsCut(key: string, i: nat)
    requires i <= |key|
  {
    i == 0 || i == |key| || !IsAlnum(key[i - 1]) || !IsAlnum(key[i]) || IsHump(key, i)
  }

  // ----- cutting -----

  function Hyphen(a: string, b: string): string
    requires a != "" && b != ""
  {
    if (IsLower(a[|a| - 1]) || IsDigit(a[|a| - 1])) && IsUpper(b[0]) then "_" else ""
  }

  lemma {:induction false} SplitCamelAppend(a: string, b: string)
    requires a != "" && b != ""
    ensures SplitCamel(a + b) == SplitCamel(a) + Hyphen(a, b) + SplitCamel(b)
    decreases |a|
  {
    if |a| == 1 {
      assert (a + b)[1..] == b;
    } else {
      var rest := a[1..];
      SplitCamelAppend(rest, b);
      assert (a + b)[1..] == rest + b && (a + b)[0] == a[0] && (a + b)[1] == rest[0] == a[1];
      assert Hyphen(a, b) == Hyphen(rest, b);
      var front := if (IsLower(a[0]) || IsDigit(a[0])) && IsUpper(a[1]) then [a[0], '_'] else [a[0]];
      assert SplitCamel(a + b) == front + SplitCamel(rest + b) && SplitCamel(a) == front + SplitCamel(rest);
      InFour(front, SplitCamel(rest), Hyphen(a, b), SplitCamel(b));
    }
  }

  lemma InFour(a: string, b: string, c: string, d: string)
    ensures a + (b + c + d) == (a + b) + c + d
  {}

  /** Splitting keeps the first and the last character. */
  lemma {:induction false} SplitCamelEnds(key: string)
    requires key != ""
    ensures SplitCamel(key) != "" && SplitCamel(key)[0] == key[0]
    ensures SplitCamel(key)[|SplitCamel(key)| - 1] == key[|key| - 1]
  {
    if |key| > 1 { SplitCamelEnds(key[1..]); }
  }

  lemma ChunksAfter(x: string, front: string, sep: char, y: string)
    requires x == front + ([sep] + "") && !IsAlnum(sep)
    ensures Chunks(x + y) == Chunks(x) + Chunks(y)
  {
    assert x + y == front + ([sep] + y);
    ChunksAppend(front, sep, y);
    ChunksAppend(front, sep, "");
  }

  lemma ChunksBefore(x: string, sep: char, rest: string, y: string)
    requires y == [sep] + rest && !IsAlnum(sep)
    ensures Chunks(x + y) == Chunks(x) + Chunks(y)
  {
    assert y == "" + y;
    ChunksAppend(x, sep, rest);
    ChunksAppend("", sep, rest);
  }

  /** A separator at the end of one part or at the start of the other keeps the chunks apart. */
  lemma ChunksApart(x: string, y: string)
    requires x != "" && y != "" && (!IsAlnum(x[|x| - 1]) || !IsAlnum(y[0]))
    ensures Chunks(x + y) == Chunks(x) + Chunks(y)
  {
    var last := |x| - 1;
    if IsAlnum(x[last]) { ChunksBefore(x, y[0], y[1..], y); } else { ChunksAfter(x, x[..last], x[last], y); }
  }

  lemma ChunksJoined(whole: string, x: string, hyphen: string, y: string)
    requires whole == x + hyphen + y && x != "" && y != ""
    requires hyphen == "_" || (hyphen == "" && (!IsAlnum(x[|x| - 1]) || !IsAlnum(y[0])))
    ensures Chunks(whole) == Chunks(x) + Chunks(y)
  {
    if hyphen == "_" {
      assert whole == x + (['_'] + y);
      ChunksAppend(x, '_', y);
    } else {
      assert whole == x + y;
      ChunksApart(x, y);
    }
  }

  lemma {:induction false} LowerAllAppend(a: seq<string>, b: seq<string>)
    ensures LowerAll(a + b) == LowerAll(a) + LowerAll(b)
  {
    if a == [] {
      assert a + b == b;
    } else {
      assert (a + b)[1..] == a[1..] + b;
      LowerAllAppend(a[1..], b);
    }
  }

  lemma ChunksOfParts(a: string, b: string)
    requires a != "" && b != "" && (!IsAlnum(a[|a| - 1]) || !IsAlnum(b[0]) || Hyphen(a, b) == "_")
    ensures Chunks(SplitCamel(a + b)) == Chunks(SplitCamel(a)) + Chunks(SplitCamel(b))
  {
    SplitCamelAppend(a, b);
    SplitCamelEnds(a);
    SplitCamelEnds(b);
    ChunksJoined(SplitCamel(a + b), SplitCamel(a), Hyphen(a, b), SplitCamel(b));
  }

  /** Every cut cuts: the tokens of a key are those before the cut and those after it. */
  lemma TokensAreCut(key: string, i: nat)
    requires i <= |key| && IsCut(key, i)
    ensures NormalizedKeyTokens(key) == NormalizedKeyTokens(key[..i]) + NormalizedKeyTokens(key[i..])
  {
    var a, b := key[..i], key[i..];
    if a == "" {
      assert b == key;
    } else if b == "" {
      assert a == key;
    } else {
      assert key == a + b && a[|a| - 1] == key[i - 1] && b[0] == key[i];
      ChunksOfParts(a, b);
      LowerAllAppend(Chunks(SplitCamel(a)), Chunks(SplitCamel(b)));
    }
  }

  lemma {:induction false} NoHumpNoSplit(key: string)
    requires forall i: nat | 0 < i < |key| :: !IsHump(key, i)
    ensures SplitCamel(key) == key
  {
    if |key| > 1 {
      assert !IsHump(key, 1);
      forall i: nat | 0 < i < |key| - 1 ensures !IsHump(key[1..], i) { assert !IsHump(key, i + 1); }
      NoHumpNoSplit(key[1..]);
    }
  }

  /** Letters and digits between two cuts, with no cut inside. */
  predicate IsPiece(key: string, a: nat, b: nat) {
    && a < b <= |key| && All(key[a..b], IsAlnum) && IsCut(key, a) && IsCut(key, b)
    && forall i: nat | a < i < b :: !IsCut(key, i)
  }

  lemma OneChunk(key: string)
    requires key != "" && All(key, IsAlnum)
    ensures Chunks(key) == [key]
  {
    SpanAll(key, IsAlnum);
    FirstChunk(key, |key|);
    assert key[|key|..] == "" && key[..|key|] == key;
  }

  lemma WholeIsOneToken(key: string)
    requires key != "" && All(key, IsAlnum) && forall i: nat | 0 < i < |key| :: !IsCut(key, i)
    ensures NormalizedKeyTokens(key) == [Lower(key)]
  {
    forall i: nat | 0 < i < |key| ensures !IsHump(key, i) { assert !IsCut(key, i); }
    NoHumpNoSplit(key);
    OneChunk(key);
    LowerOfOne(key);
  }

  lemma LowerOfOne(part: string)
    ensures LowerAll([part]) == [Lower(part)]
  {
    assert [part][1..] == [];
  }

  lemma PartsAreCutAlike(key: string, i: nat, j: nat)
    requires i <= j <= |key| && IsCut(key, i) && IsCut(key, j)
    ensures IsCut(key[i..], j - i)
    ensures forall k: nat | 0 < k < j - i :: IsCut(key[i..j], k) <==> IsCut(key, i + k)
  {}

  lemma TokensAreCutTwice(key: string, i: nat, j: nat)
    requires i <= j <= |key| && IsCut(key, i) && IsCut(key, j)
    ensures NormalizedKeyTokens(key)
      == NormalizedKeyTokens(key[..i]) + NormalizedKeyTokens(key[i..j]) + NormalizedKeyTokens(key[j..])
  {
    TokensAreCut(key, i);
    PartsAreCutAlike(key, i, j);
    TokensAreCut(key[i..], j - i);
    KeyBoundaries.InnerSlices(key, i, j);
    KeyBoundaries.InThree(NormalizedKeyTokens(key), NormalizedKeyTokens(key[..i]), NormalizedKeyTokens(key[i..]),
      NormalizedKeyTokens(key[i..j]), NormalizedKeyTokens(key[j..]));
  }

  /** Nothing else cuts: each piece, lowercased, is one token, in its place. */
  lemma PieceIsToken(key: string, a: nat, b: nat)
    requires IsPiece(key, a, b)
    ensures NormalizedKeyTokens(key) == NormalizedKeyTokens(key[..a]) + [Lower(key[a..b])] + NormalizedKeyTokens(key[b..])
  {
    TokensAreCutTwice(key, a, b);
    PartsAreCutAlike(key, a, b);
    forall i: nat | 0 < i < b - a ensures !IsCut(key[a..b], i) { assert !IsCut(key, a + i); }
    WholeIsOneToken(key[a..b]);
  }

  // ----- tokens are pieces -----

  predicate IsPieceOf(key: string, t: string) {
    exists a, b | 0 <= a < b <= |key| :: IsPiece(key, a, b) && t == Lower(key[a..b])
  }

  ghost function FirstCut(key: string, i: nat): (m: nat)
    requires 0 < i <= |key| && forall k: nat | 0 < k < i :: !IsCut(key, k)
    ensures 0 < m <= |key| && IsCut(key, m) && forall k: nat | 0 < k < m :: !IsCut(key, k)
    decreases |key| - i
  {
    if IsCut(key, i) then i else FirstCut(key, i + 1)
  }

  lemma UncutIsAlnum(key: string, m: nat)
    requires 0 < m <= |key| && IsAlnum(key[0]) && forall k: nat | 0 < k < m :: !IsCut(key, k)
    ensures All(key[..m], IsAlnum)
  {
    forall k | 0 < k < m ensures IsAlnum(key[k]) { assert !IsCut(key, k); }
  }

  lemma CutBehind(key: string, m: nat, i: nat)
    requires 0 < m && m + i <= |key| && IsCut(key, m)
    ensures IsCut(key[m..], i) <==> IsCut(key, m + i)
  {}

  lemma PieceIsBehind(key: string, m: nat, a: nat, b: nat)
    requires 0 < m <= |key| && IsCut(key, m) && IsPiece(key[m..], a, b)
    ensures IsPiece(key, m + a, m + b) && key[m..][a..b] == key[m + a..m + b]
  {
    var rest := key[m..];
    assert rest[a..b] == key[m + a..m + b];
    CutBehind(key, m, a);
    CutBehind(key, m, b);
    forall i: nat | m + a < i < m + b ensures !IsCut(key, i) { CutBehind(key, m, i - m); }
  }

  lemma PieceBehind(key: string, m: nat, t: string)
    requires 0 < m <= |key| && IsCut(key, m) && IsPieceOf(key[m..], t)
    ensures IsPieceOf(key, t)
  {
    var a, b :| 0 <= a < b <= |key[m..]| && IsPiece(key[m..], a, b) && t == Lower(key[m..][a..b]);
    PieceIsBehind(key, m, a, b);
  }

  lemma SeparatorHasNoToken(key: string)
    requires key != "" && !IsAlnum(key[0])
    ensures NormalizedKeyTokens(key[..1]) == []
  {
    assert |key[..1]| == 1 && SplitCamel(key[..1]) == key[..1] && key[..1][1..] == "";
    assert Chunks(key[..1]) == [];
  }

  lemma FirstIsPiece(key: string, m: nat)
    requires 0 < m <= |key| && IsAlnum(key[0]) && IsCut(key, m) && forall k: nat | 0 < k < m :: !IsCut(key, k)
    ensures NormalizedKeyTokens(key[..m]) == [Lower(key[..m])] && IsPieceOf(key, Lower(key[..m]))
  {
    UncutIsAlnum(key, m);
    assert key[0..m] == key[..m];
    assert IsPiece(key, 0, m);
    PartsAreCutAlike(key, 0, m);
    forall i: nat | 0 < i < m ensures !IsCut(key[..m], i) { assert !IsCut(key, i); }
    WholeIsOneToken(key[..m]);
  }

  /** Every token is a piece of the key. */
  lemma {:induction false} TokenIsPiece(key: string, t: string)
    requires t in NormalizedKeyTokens(key)
    ensures IsPieceOf(key, t)
    decreases |key|
  {
    if key != "" {
      var m := if IsAlnum(key[0]) then FirstCut(key, 1) else 1;
      TokensAreCut(key, m);
      if IsAlnum(key[0]) { FirstIsPiece(key, m); } else { SeparatorHasNoToken(key); }
      if t in NormalizedKeyTokens(key[m..]) {
        TokenIsPiece(key[m..], t);
        PieceBehind(key, m, t);
      }
    }
  }

  /** The tokens of a key are its pieces, lowercased. */
  lemma TokenIffPiece(key: string, t: string)
    ensures t in NormalizedKeyTokens(key) <==> IsPieceOf(key, t)
  {
    if t in NormalizedKeyTokens(key) { TokenIsPiece(key, t); }
    if IsPieceOf(key, t) {
      var a, b :| 0 <= a < b <= |key| && IsPiece(key, a, b) && t == Lower(key[a..b]);
      PieceIsToken(key, a, b);
    }
  }
}
