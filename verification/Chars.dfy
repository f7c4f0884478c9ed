/** ASCII character classes and string helpers shared by the tokenisers and scans. */
module Chars {
  predicate IsUpper(c: char) { 'A' <= c <= 'Z' }
  predicate IsLower(c: char) { 'a' <= c <= 'z' }
  predicate IsDigit(c: char) { '0' <= c <= '9' }
  predicate IsLetter(c: char) { IsUpper(c) || IsLower(c) }
  predicate IsAlnum(c: char) { IsLetter(c) || IsDigit(c) }

  /** What `str.strip` and `str.split` take for white space, within ASCII. */
  predicate IsSpace(c: char) {
    c == ' ' || '\t' <= c <= '\r' || '\U{1c}' <= c <= '\U{1f}'
  }

  function LowerChar(c: char): (r: char) {
    if IsUpper(c) then c - 'A' + 'a' else c
  }

  function Lower(s: string): (r: string)
    ensures |r| == |s| && forall i | 0 <= i < |s| :: r[i] == LowerChar(s[i])
  {
    if s == "" then "" else [LowerChar(s[0])] + Lower(s[1..])
  }

  predicate All(s: string, p: char -> bool) {
    forall i | 0 <= i < |s| :: p(s[i])
  }

  /** The letters and digits of `s`, in order and lowercased. */
  function LowerAlnum(s: string): string {
    if s == "" then ""
    else (if IsAlnum(s[0]) then [LowerChar(s[0])] else "") + LowerAlnum(s[1..])
  }

  function Concat(parts: seq<string>): string {
    if parts == [] then "" else parts[0] + Concat(parts[1..])
  }

  /** The length of the longest prefix of `s` whose characters satisfy `p`. */
  function Span(s: string, p: char -> bool): (n: nat)
    ensures n <= |s| && All(s[..n], p) && (n < |s| ==> !p(s[n]))
  {
    if s == "" || !p(s[0]) then 0
    else
      var m := Span(s[1..], p);
      assert forall i | 0 < i < 1 + m :: s[i] == s[1..][..m][i - 1];
      1 + m
  }

  lemma {:induction false} SpanAll(s: string, p: char -> bool)
    requires All(s, p)
    ensures Span(s, p) == |s|
  {
    if s != "" { SpanAll(s[1..], p); }
  }

  /** `part` stands in `whole` at index `i`. */
  predicate OccursAt<T(==)>(whole: seq<T>, part: seq<T>, i: nat) {
    i + |part| <= |whole| && whole[i..i + |part|] == part
  }

  /** `part` stands somewhere in `whole`. */
  predicate Contains<T(==)>(whole: seq<T>, part: seq<T>) {
    exists i | 0 <= i <= |whole| :: OccursAt(whole, part, i)
  }

  /** `needle` stands in `s` at `i`, in any case. */
  predicate AppearsAt(s: string, needle: string, i: nat) {
    i + |needle| <= |s| && forall k | 0 <= k < |needle| :: LowerChar(s[i + k]) == LowerChar(needle[k])
  }

  predicate Appears(s: string, needle: string) {
    exists i | 0 <= i <= |s| :: AppearsAt(s, needle, i)
  }

  lemma AppearsAtIff(s: string, needle: string, i: nat)
    ensures OccursAt(Lower(s), Lower(needle), i) <==> AppearsAt(s, needle, i)
  {
    if i + |needle| <= |s| {
      var part := Lower(s)[i..i + |needle|];
      assert forall k | 0 <= k < |needle| :: part[k] == LowerChar(s[i + k]);
    }
  }

  lemma AppearsIff(s: string, needle: string)
    ensures Contains(Lower(s), Lower(needle)) <==> Appears(s, needle)
  {
    forall i | 0 <= i <= |s| ensures OccursAt(Lower(s), Lower(needle), i) <==> AppearsAt(s, needle, i) {
      AppearsAtIff(s, needle, i);
    }
  }

  lemma ContainsInContext<T>(whole: seq<T>, part: seq<T>, left: seq<T>, right: seq<T>)
    requires Contains(whole, part)
    ensures Contains(left + whole + right, part)
  {
    var i :| 0 <= i <= |whole| && OccursAt(whole, part, i);
    var all, j := left + whole + right, |left| + i;
    assert all[j..j + |part|] == whole[i..i + |part|];
    assert OccursAt(all, part, j);
  }

  lemma LowerAppend(a: string, b: string)
    ensures Lower(a + b) == Lower(a) + Lower(b)
  {}

  lemma {:induction false} LowerAlnumConcat(a: string, b: string)
    ensures LowerAlnum(a + b) == LowerAlnum(a) + LowerAlnum(b)
  {
    if a == "" {
      assert a + b == b;
    } else {
      LowerAlnumConcat(a[1..], b);
      var rest := a[1..] + b;
      assert (a + b)[1..] == rest && (a + b)[0] == a[0];
    }
  }

  lemma {:induction false} LowerAlnumOfAlnum(s: string)
    requires All(s, IsAlnum)
    ensures LowerAlnum(s) == Lower(s)
  {
    if s != "" {
      LowerAlnumOfAlnum(s[1..]);
    }
  }

  lemma {:induction false} LowerAlnumOfOthers(s: string)
    requires All(s, (c: char) => !IsAlnum(c))
    ensures LowerAlnum(s) == ""
  {
    if s != "" {
      LowerAlnumOfOthers(s[1..]);
    }
  }

  lemma {:induction false} ConcatAppend(a: seq<string>, b: seq<string>)
    ensures Concat(a + b) == Concat(a) + Concat(b)
  {
    if a == [] {
      assert a + b == b;
    } else {
      assert (a + b)[1..] == a[1..] + b;
      ConcatAppend(a[1..], b);
    }
  }
}
