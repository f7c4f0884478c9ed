/** The relative-path rule, once as the regular expression
    `^(?!/)(?!.*(?:^|/)\.\.(?:/|$)).+$` and once on path parts, and the descendant check
    (qa/matrix_run_model.py, qa/runner_substrate_proof_check.py, qa/matrix_run_json.py). */
module PathSafety {
  // ----- the expression -----

  predicate IsLine(s: string) { '\n' !in s }

  /** `$`: the end, or just before a final newline. */
  predicate AtEnd(s: string, i: nat) {
    i == |s| || (i == |s| - 1 && s[i] == '\n')
  }

  /** `\.\.(?:/|$)` at index `i`. */
  predicate DotDotAt(s: string, i: nat) {
    i + 2 <= |s| && s[i] == '.' && s[i + 1] == '.' && (AtEnd(s, i + 2) || (i + 2 < |s| && s[i + 2] == '/'))
  }

  /** `.*(?:^|/)\.\.(?:/|$)` from the start: `.*` takes `s[..j]`. */
  predicate TraversesAfter(s: string, j: nat) {
    && j <= |s| && IsLine(s[..j])
    && ((j == 0 && DotDotAt(s, j)) || (j < |s| && s[j] == '/' && DotDotAt(s, j + 1)))
  }

  /** The whole string matches the expression. */
  predicate MatchesSafePath(s: string) {
    && !(s != "" && s[0] == '/')
    && !(exists j | 0 <= j <= |s| :: TraversesAfter(s, j))
    && s != "" && IsLine(s)
  }

  // ----- the parts -----

  /** `s.split("/")`. */
  function Split(s: string): (segments: seq<string>)
    ensures segments != []
  {
    if s == "" then [""]
    else if s[0] == '/' then [""] + Split(s[1..])
    else
      var rest := Split(s[1..]);
      [[s[0]] + rest[0]] + rest[1..]
  }

  /** Segments that `pathlib` keeps: neither empty nor ".". */
  function Kept(segments: seq<string>): seq<string> {
    if segments == [] then []
    else (if segments[0] == "" || segments[0] == "." then [] else [segments[0]]) + Kept(segments[1..])
  }

  predicate IsAbsolute(s: string) { s != "" && s[0] == '/' }

  /** The anchor of an absolute path; exactly two leading slashes are kept as two. */
  function Anchor(s: string): seq<string> {
    if !IsAbsolute(s) then []
    else if |s| >= 2 && s[1] == '/' && (|s| == 2 || s[2] != '/') then ["//"]
    else ["/"]
  }

  /** `Path(s).parts`. */
  function Parts(s: string): seq<string> { Anchor(s) + Kept(Split(s)) }

  /** `require_safe_path` does not raise on the text `s`. */
  predicate IsSafePath(s: string) {
    s != "" && !IsAbsolute(s) && ".." !in Parts(s)
  }

  /** `require_descendant`: the path is the root or starts with its parts. */
  predicate IsDescendant(path: string, root: string) {
    Parts(path) == Parts(root) || (|Parts(root)| <= |Parts(path)| && Parts(path)[..|Parts(root)|] == Parts(root))
  }

  // ----- the two forms agree -----

  /** A segment ".." of `s` starts at `i`. */
  predicate SegmentAt(s: string, i: nat) {
    && i + 2 <= |s| && s[i] == '.' && s[i + 1] == '.'
    && (i == 0 || s[i - 1] == '/') && (i + 2 == |s| || s[i + 2] == '/')
  }

  lemma {:induction false} FirstSegment(s: string)
    ensures Split(s)[0] <= s && '/' !in Split(s)[0]
    ensures |Split(s)[0]| == |s| || s[|Split(s)[0]|] == '/'
  {
    if s != "" && s[0] != '/' {
      FirstSegment(s[1..]);
      assert s == [s[0]] + s[1..];
    }
  }

  lemma {:induction false} SegmentIffAt(s: string)
    ensures ".." in Split(s)[1..] <==> exists i | 0 < i <= |s| :: SegmentAt(s, i)
    ensures Split(s)[0] == ".." <==> SegmentAt(s, 0)
  {
    FirstSegment(s);
    if s != "" {
      var tail := s[1..];
      SegmentIffAt(tail);
      forall i | 1 < i <= |s| ensures SegmentAt(s, i) <==> SegmentAt(tail, i - 1) {}
      if s[0] == '/' {
        assert Split(s)[1..] == Split(tail);
        assert SegmentAt(s, 1) <==> SegmentAt(tail, 0);
        if ".." in Split(tail) {
          if Split(tail)[0] == ".." {
            assert SegmentAt(s, 1);
          } else {
            var i :| 0 < i <= |tail| && SegmentAt(tail, i);
            assert SegmentAt(s, i + 1);
          }
        }
        if i :| 0 < i <= |s| && SegmentAt(s, i) {
          assert SegmentAt(tail, i - 1);
        }
      } else {
        assert Split(s)[1..] == Split(tail)[1..];
        assert !SegmentAt(s, 1);
        if i :| 0 < i <= |tail| && SegmentAt(tail, i) {
          assert SegmentAt(s, i + 1);
        }
        if i :| 0 < i <= |s| && SegmentAt(s, i) {
          assert SegmentAt(tail, i - 1);
        }
      }
    }
  }

  lemma {:induction false} KeptKeepsDotDot(segments: seq<string>)
    ensures ".." in Kept(segments) <==> ".." in segments
  {
    if segments != [] {
      KeptKeepsDotDot(segments[1..]);
    }
  }

  lemma TraversesIffSegment(s: string)
    requires IsLine(s)
    ensures (exists j | 0 <= j <= |s| :: TraversesAfter(s, j)) <==> exists i | 0 <= i <= |s| :: SegmentAt(s, i)
  {
    forall j | 0 <= j <= |s| ensures IsLine(s[..j]) {}
    if j :| 0 <= j <= |s| && TraversesAfter(s, j) {
      assert SegmentAt(s, if j == 0 && DotDotAt(s, j) then 0 else j + 1);
    }
    if i :| 0 <= i <= |s| && SegmentAt(s, i) {
      assert TraversesAfter(s, if i == 0 then 0 else i - 1);
    }
  }

  /** The parts rule accepts exactly the relative texts without a segment "..". */
  lemma SafeIffNoDotDotSegment(s: string)
    ensures IsSafePath(s) <==> s != "" && s[0] != '/' && forall i | 0 <= i <= |s| :: !SegmentAt(s, i)
  {
    if s != "" && !IsAbsolute(s) {
      SegmentIffAt(s);
      KeptKeepsDotDot(Split(s));
      assert Split(s) == [Split(s)[0]] + Split(s)[1..];
      assert Parts(s) == Kept(Split(s));
    }
  }

  /** The expression and the parts rule accept exactly the same newline-free strings, and
      the expression accepts no others. */
  lemma ExpressionIffParts(s: string)
    ensures MatchesSafePath(s) <==> IsSafePath(s) && IsLine(s)
  {
    SafeIffNoDotDotSegment(s);
    if IsLine(s) { TraversesIffSegment(s); }
  }

  // ----- containment -----

  /** Lexical resolution: "" and "." stay, ".." goes up (at the top it stays there). */
  function Resolve(segments: seq<string>): seq<string> {
    if segments == [] then [] else
      var front, last := Resolve(segments[..|segments| - 1]), segments[|segments| - 1];
      if last == "" || last == "." then front
      else if last == ".." then (if front == [] then [] else front[..|front| - 1])
      else front + [last]
  }

  lemma {:induction false} KeptAppend(a: seq<string>, b: seq<string>)
    ensures Kept(a + b) == Kept(a) + Kept(b)
  {
    if a == [] {
      assert a + b == b;
    } else {
      assert (a + b)[1..] == a[1..] + b;
      KeptAppend(a[1..], b);
    }
  }

  lemma {:induction false} ResolveIsKept(segments: seq<string>)
    requires ".." !in segments
    ensures Resolve(segments) == Kept(segments)
    decreases |segments|
  {
    if segments != [] {
      var front, last := segments[..|segments| - 1], segments[|segments| - 1];
      ResolveIsKept(front);
      KeptAppend(front, [last]);
      assert segments == front + [last];
      assert Kept([last]) == (if last == "" || last == "." then [] else [last]) + Kept([last][1..]);
    }
  }

  /** Containment: a path that passes both checks against a root without ".." still lies
      under that root once every segment is resolved. */
  lemma SafeDescendantStaysUnderRoot(path: string, root: string)
    requires IsSafePath(path) && !IsAbsolute(root) && ".." !in Split(root) && IsDescendant(path, root)
    ensures Resolve(Split(root)) <= Resolve(Split(path))
  {
    KeptKeepsDotDot(Split(path));
    ResolveIsKept(Split(path));
    ResolveIsKept(Split(root));
    RelativeParts(path);
    RelativeParts(root);
  }

  /** The check accepts exactly the paths that resolve under the root: it rejects none that does. */
  lemma DescendantIffUnderRoot(path: string, root: string)
    requires !IsAbsolute(path) && !IsAbsolute(root) && ".." !in Split(path) && ".." !in Split(root)
    ensures IsDescendant(path, root) <==> Resolve(Split(root)) <= Resolve(Split(path))
  {
    ResolveIsKept(Split(path));
    ResolveIsKept(Split(root));
    RelativeParts(path);
    RelativeParts(root);
  }

  lemma RelativeParts(s: string)
    requires !IsAbsolute(s)
    ensures Parts(s) == Kept(Split(s))
  {}

  // ----- the manifest root -----

  const MATRIX_BASE: seq<string> := ["evidence", "lab", "matrix"]

  predicate IsRunIdChar(c: char) {
    'A' <= c <= 'Z' || 'a' <= c <= 'z' || '0' <= c <= '9' || c == '_' || c == '.' || c == '-'
  }

  predicate IsRunId(s: string) {
    1 <= |s| <= 64 && forall i | 0 <= i < |s| :: IsRunIdChar(s[i])
  }

  /** `require_manifest_root` does not raise. */
  predicate IsManifestPath(s: string) {
    && !IsAbsolute(s) && ".." !in Parts(s)
    && |Parts(s)| == 5 && Parts(s)[..3] == MATRIX_BASE && Parts(s)[4] == "manifest.json" && IsRunId(Parts(s)[3])
  }

  function Slashed(parts: seq<string>): string {
    if parts == [] then "" else if |parts| == 1 then parts[0] else parts[0] + "/" + Slashed(parts[1..])
  }

  /** The root `Path(*parts[:4])`, as text. */
  function ManifestRoot(s: string): string
    requires IsManifestPath(s)
  {
    Slashed(Parts(s)[..4])
  }

  /** A part as `pathlib` yields it. */
  predicate IsPart(p: string) { p != "" && p != "." && '/' !in p }

  lemma {:induction false} SplitHasNoSlash(s: string)
    ensures forall p | p in Split(s) :: '/' !in p
  {
    if s != "" {
      SplitHasNoSlash(s[1..]);
    }
  }

  lemma {:induction false} KeptAreParts(segments: seq<string>)
    requires forall p | p in segments :: '/' !in p
    ensures forall p | p in Kept(segments) :: IsPart(p)
  {
    if segments != [] {
      KeptAreParts(segments[1..]);
    }
  }

  lemma {:induction false} SplitSlash(a: string, b: string)
    requires '/' !in a
    ensures Split(a + "/" + b) == [a] + Split(b) && Split(a) == [a]
  {
    if a == "" {
      assert a + "/" + b == ['/'] + b;
    } else {
      SplitSlash(a[1..], b);
      assert (a + "/" + b)[1..] == a[1..] + "/" + b;
      assert [a[0]] + a[1..] == a;
    }
  }

  lemma {:induction false} SplitOfSlashed(parts: seq<string>)
    requires parts != [] && forall p | p in parts :: IsPart(p)
    ensures Split(Slashed(parts)) == parts && Kept(parts) == parts
  {
    assert IsPart(parts[0]) && parts == [parts[0]] + parts[1..];
    if |parts| > 1 {
      SplitOfSlashed(parts[1..]);
      SplitSlash(parts[0], Slashed(parts[1..]));
    } else {
      SplitSlash(parts[0], "");
      assert Kept(parts) == [parts[0]] + Kept(parts[1..]);
    }
  }

  /** An accepted manifest path gives a root that is its run directory, lies under the
      matrix base, has no "..", and contains the manifest. */
  lemma ManifestRootIsRunDirectory(s: string)
    requires IsManifestPath(s)
    ensures Parts(ManifestRoot(s)) == MATRIX_BASE + [Parts(s)[3]]
    ensures !IsAbsolute(ManifestRoot(s)) && ".." !in Split(ManifestRoot(s)) && IsDescendant(s, ManifestRoot(s))
  {
    var parts := Parts(s)[..4];
    SplitHasNoSlash(s);
    KeptAreParts(Split(s));
    SplitOfSlashed(parts);
    assert parts == MATRIX_BASE + [Parts(s)[3]];
    FirstSegment(ManifestRoot(s));
    assert Split(ManifestRoot(s))[0] == "evidence";
  }

  /** Any path accepted under the root of an accepted manifest resolves into that run's
      directory. */
  lemma AcceptedArtifactIsInRunDirectory(manifest: string, path: string)
    requires IsManifestPath(manifest) && IsSafePath(path) && IsDescendant(path, ManifestRoot(manifest))
    ensures MATRIX_BASE + [Parts(manifest)[3]] <= Resolve(Split(path))
  {
    ManifestRootIsRunDirectory(manifest);
    SafeDescendantStaysUnderRoot(path, ManifestRoot(manifest));
    ResolveIsKept(Split(ManifestRoot(manifest)));
    KeptKeepsDotDot(Split(ManifestRoot(manifest)));
  }

  /** The manifest of a run, by its id. */
  function ManifestOf(id: string): string { Slashed(MATRIX_BASE + [id, "manifest.json"]) }

  /** Exactly which run directories have a manifest: those named by 1 to 64 letters, digits,
      underscores, dots and dashes, but for "." and ".."; the root is then that directory. */
  lemma RunManifestIsAcceptedIff(id: string)
    requires '/' !in id
    ensures IsManifestPath(ManifestOf(id)) <==>
      && 1 <= |id| <= 64 && id != "." && id != ".."
      && forall c | c in id :: c == '_' || c == '.' || c == '-' || 'A' <= c <= 'Z' || 'a' <= c <= 'z' || '0' <= c <= '9'
    ensures IsManifestPath(ManifestOf(id)) ==> Parts(ManifestOf(id))[3] == id
  {
    ManifestSplits(id);
    if id == "" { KeptOfNoId(); } else { KeptOfManifest(id); }
    assert IsRunId(id) <==> 1 <= |id| <= 64 && forall c | c in id :: IsRunIdChar(c);
  }

  lemma KeptOfNoId()
    ensures |Kept(MATRIX_BASE + ["", "manifest.json"])| == 4
  {
    var base, last := MATRIX_BASE, "manifest.json";
    assert IsPart(last) && forall p | p in base :: IsPart(p);
    KeptAppend(base, ["", last]);
    SplitOfSlashed(base);
    SplitOfSlashed([last]);
    assert ["", last][1..] == [last];
  }

  lemma ManifestSplits(id: string)
    requires '/' !in id
    ensures Split(ManifestOf(id)) == MATRIX_BASE + [id, "manifest.json"] && !IsAbsolute(ManifestOf(id))
  {
    var parts := MATRIX_BASE + [id, "manifest.json"];
    SlashedSplits(parts);
    FirstSegment(ManifestOf(id));
    assert parts[0] == "evidence";
  }

  lemma {:induction false} SlashedSplits(parts: seq<string>)
    requires parts != [] && forall p | p in parts :: '/' !in p
    ensures Split(Slashed(parts)) == parts
  {
    assert parts == [parts[0]] + parts[1..];
    if |parts| > 1 {
      SlashedSplits(parts[1..]);
      SplitSlash(parts[0], Slashed(parts[1..]));
    } else {
      SplitSlash(parts[0], "");
    }
  }

  lemma KeptOfManifest(id: string)
    requires id != ""
    ensures Kept(MATRIX_BASE + [id, "manifest.json"]) == if id == "." then MATRIX_BASE + ["manifest.json"] else MATRIX_BASE + [id, "manifest.json"]
  {
    var base, last := MATRIX_BASE, "manifest.json";
    assert IsPart(last) && forall p | p in base :: IsPart(p);
    SplitOfSlashed(base);
    SplitOfSlashed([last]);
    KeptAround(base, id, last);
  }

  lemma KeptAround(base: seq<string>, id: string, last: string)
    requires id != "" && Kept(base) == base && Kept([last]) == [last]
    ensures Kept(base + [id, last]) == if id == "." then base + [last] else base + [id, last]
  {
    assert [id, last][0] == id && [id, last][1..] == [last];
    KeptAppend(base, [id, last]);
  }
}
