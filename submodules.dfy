/**
 * The `.gitmodules` scanner: the global regular expression
 * `(?<=path = )([\S]*)(?=\n)` run over the file's text, and the directory
 * entries made from its captures.
 */
module Submodules {
  import opened Types
  import opened Paths

  /** The text the lookbehind requires just before a capture. */
  const Marker: string := "path = "

  /** JavaScript's `\s`: the characters `[\S]` refuses. */
  predicate IsSpace(c: char)
  {
    c == '\t' || c == '\n' || c == '\U{000B}' || c == '\U{000C}' || c == '\r' || c == ' ' ||
    c == '\U{00A0}' || c == '\U{1680}' || ('\U{2000}' <= c <= '\U{200A}') ||
    c == '\U{2028}' || c == '\U{2029}' || c == '\U{202F}' || c == '\U{205F}' ||
    c == '\U{3000}' || c == '\U{FEFF}'
  }

  /** The length of the longest run of non-space characters starting at `p` (what greedy `[\S]*` takes). */
  function RunLength(s: string, p: nat): (n: nat)
    requires p <= |s|
    ensures p + n <= |s|
    ensures p + n == |s| || IsSpace(s[p + n])
    decreases |s| - p
  {
    if p == |s| || IsSpace(s[p]) then 0 else 1 + RunLength(s, p + 1)
  }

  /** The run `RunLength` measures holds no space. */
  lemma {:induction false} RunSpaceFree(s: string, p: nat)
    requires p <= |s|
    ensures forall i :: p <= i < p + RunLength(s, p) ==> !IsSpace(s[i])
    decreases |s| - p
  {
    if p < |s| && !IsSpace(s[p]) {
      RunSpaceFree(s, p + 1);
    }
  }

  /** The lookbehind `(?<=path = )` holds at `p`, compared character by character. */
  predicate MarkerBefore(s: string, p: nat)
  {
    |Marker| <= p <= |s| &&
    s[p - 7] == 'p' && s[p - 6] == 'a' && s[p - 5] == 't' && s[p - 4] == 'h' &&
    s[p - 3] == ' ' && s[p - 2] == '=' && s[p - 1] == ' '
  }

  /** The character-wise test is the comparison of the seven characters before `p` with the marker. */
  lemma MarkerBeforeSlice(s: string, p: nat)
    requires |Marker| <= p <= |s|
    ensures MarkerBefore(s, p) <==> s[p - |Marker|..p] == Marker
  {
    var w := s[p - |Marker|..p];
    assert forall j :: 0 <= j < |Marker| ==> w[j] == s[p - |Marker| + j];
  }

  /**
   * The expression matches at `p`, capturing `n` characters: the marker
   * precedes `p` and the greedy run is followed by "\n". A shorter run is
   * never followed by "\n" (its next character is not a space), so
   * backtracking finds nothing more.
   */
  function MatchAt(s: string, p: nat): (r: Option<nat>)
    requires p <= |s|
    ensures r.Some? ==> p + r.value < |s| && s[p + r.value] == '\n' && MarkerBefore(s, p)
  {
    var n := RunLength(s, p);
    if MarkerBefore(s, p) && p + n < |s| && s[p + n] == '\n' then Some(n) else None
  }

  /**
   * `String.prototype.match` with the global flag, from position `p`: after
   * a match the search resumes at its end, or one further on after an empty
   * match; after a failed attempt it resumes one further on.
   */
  function ScanFrom(s: string, p: nat): seq<string>
    requires p <= |s|
    decreases |s| - p
  {
    if p == |s| then []
    else match MatchAt(s, p)
      case None => ScanFrom(s, p + 1)
      case Some(n) => [s[p..p + n]] + ScanFrom(s, p + if n == 0 then 1 else n)
  }

  /** `fileContent.match(re) ?? []`: every captured submodule path, in file order. */
  function MatchModules(content: string): seq<string>
  {
    ScanFrom(content, 0)
  }

  /** `findSubmodules`: one directory entry per captured path, located beside the `.gitmodules` file. */
  function FindSubmodules(filePath: string, content: string): (r: seq<ChildInfo>)
    ensures |r| == |MatchModules(content)|
    ensures forall i :: 0 <= i < |r| ==>
      r[i].isDir && r[i].name == MatchModules(content)[i] && r[i].path == Join(Dirname(filePath), r[i].name)
  {
    var modules := MatchModules(content);
    seq(|modules|, i requires 0 <= i < |modules| => ChildInfo(modules[i], Join(Dirname(filePath), modules[i]), true))
  }

  /** The capture at `p` if there is one: the reference reading that tries every position. */
  function CaptureAt(s: string, p: nat): seq<string>
    requires p <= |s|
  {
    match MatchAt(s, p)
    case None => []
    case Some(n) => [s[p..p + n]]
  }

  /** The captures at every position from `p` on, in position order. */
  function AllCaptures(s: string, p: nat): seq<string>
    requires p <= |s|
    decreases |s| - p
  {
    if p == |s| then [] else CaptureAt(s, p) + AllCaptures(s, p + 1)
  }

  /** `v` stands in `s` right after "path = ", is free of spaces, and is followed by "\n". */
  ghost predicate CapturedIn(s: string, v: string)
  {
    (forall i :: 0 <= i < |v| ==> !IsSpace(v[i])) &&
    exists p: nat :: MarkerBefore(s, p) && p + |v| < |s| && s[p..p + |v|] == v && s[p + |v|] == '\n'
  }

  /** No match can start right after a non-space character. */
  lemma NoMatchAfterNonSpace(s: string, q: nat)
    requires 0 < q <= |s| && !IsSpace(s[q - 1])
    ensures MatchAt(s, q) == None
  {
  }

  /** Inside a run every position is skipped by the every-position reading too. */
  lemma {:induction false} SkipRun(s: string, p: nat, q: nat, n: nat)
    requires p < q <= p + n <= |s|
    requires forall i :: p <= i < p + n ==> !IsSpace(s[i])
    ensures AllCaptures(s, q) == AllCaptures(s, p + n)
    decreases p + n - q
  {
    if q < p + n {
      NoMatchAfterNonSpace(s, q);
      SkipRun(s, p, q + 1, n);
    }
  }

  /** Where the global search resumes after trying position `p`. */
  function Resume(s: string, p: nat): (q: nat)
    requires p < |s|
    ensures p < q <= |s|
  {
    match MatchAt(s, p)
    case Some(n) => if n == 0 then p + 1 else p + n
    case None => p + 1
  }

  lemma ScanStep(s: string, p: nat)
    requires p < |s|
    ensures ScanFrom(s, p) == CaptureAt(s, p) + ScanFrom(s, Resume(s, p))
  {
    var rest := ScanFrom(s, Resume(s, p));
    match MatchAt(s, p)
    case None =>
      assert ScanFrom(s, p) == rest;
      assert CaptureAt(s, p) + rest == rest;
    case Some(n) =>
      assert ScanFrom(s, p) == [s[p..p + n]] + rest;
  }

  lemma AllStep(s: string, p: nat)
    requires p < |s|
    ensures AllCaptures(s, p) == CaptureAt(s, p) + AllCaptures(s, p + 1)
  {
  }

  /** Skipping from `p + 1` to the resume point passes no capture of the every-position reading. */
  lemma ResumeSkips(s: string, p: nat)
    requires p < |s|
    ensures AllCaptures(s, p + 1) == AllCaptures(s, Resume(s, p))
  {
    var q := Resume(s, p);
    if q > p + 1 {
      RunSpaceFree(s, p);
      SkipRun(s, p, p + 1, q - p);
    }
  }

  /** The scanner finds exactly the captures at every position: resuming after a match skips nothing. */
  lemma {:induction false} ScanFindsAll(s: string, p: nat)
    requires p <= |s|
    ensures ScanFrom(s, p) == AllCaptures(s, p)
    decreases |s| - p
  {
    if p < |s| {
      var q := Resume(s, p);
      calc {
        ScanFrom(s, p);
        { ScanStep(s, p); }
        CaptureAt(s, p) + ScanFrom(s, q);
        { ScanFindsAll(s, q); }
        CaptureAt(s, p) + AllCaptures(s, q);
        { ResumeSkips(s, p); }
        CaptureAt(s, p) + AllCaptures(s, p + 1);
        { AllStep(s, p); }
        AllCaptures(s, p);
      }
    }
  }

  /** A capture at one position satisfies the description of a captured path. */
  lemma CaptureSound(s: string, p: nat)
    requires p < |s|
    ensures forall v :: v in CaptureAt(s, p) ==> CapturedIn(s, v)
  {
    if MatchAt(s, p).Some? {
      var n := MatchAt(s, p).value;
      var v := s[p..p + n];
      RunSpaceFree(s, p);
      assert forall i :: 0 <= i < |v| ==> v[i] == s[p + i];
      assert MarkerBefore(s, p) && p + |v| < |s| && s[p..p + |v|] == v && s[p + |v|] == '\n';
    }
  }

  lemma {:induction false} AllCapturesSound(s: string, p: nat)
    requires p <= |s|
    ensures forall v :: v in AllCaptures(s, p) ==> CapturedIn(s, v)
    decreases |s| - p
  {
    if p < |s| {
      AllCapturesSound(s, p + 1);
      CaptureSound(s, p);
      AllStep(s, p);
    }
  }

  /** Every returned path followed "path = " in the file, has no space in it, and ended at a newline. */
  lemma MatchModulesSound(content: string)
    ensures forall v :: v in MatchModules(content) ==> CapturedIn(content, v)
  {
    ScanFindsAll(content, 0);
    AllCapturesSound(content, 0);
  }

  lemma {:induction false} AllCapturesComplete(s: string, p: nat, q: nat)
    requires p <= q < |s|
    requires MarkerBefore(s, q) && q + RunLength(s, q) < |s| && s[q + RunLength(s, q)] == '\n'
    ensures s[q..q + RunLength(s, q)] in AllCaptures(s, p)
    decreases q - p
  {
    if p < q {
      AllCapturesComplete(s, p + 1, q);
    }
  }

  /** Every "path = " followed by a space-free run that ends at a newline contributes that run. */
  lemma MatchModulesComplete(content: string, q: nat)
    requires q < |content|
    requires MarkerBefore(content, q)
    requires q + RunLength(content, q) < |content| && content[q + RunLength(content, q)] == '\n'
    ensures content[q..q + RunLength(content, q)] in MatchModules(content)
  {
    ScanFindsAll(content, 0);
    AllCapturesComplete(content, 0, q);
  }

  lemma NoNewlineNoCaptures(s: string)
    requires '\n' !in s
    ensures AllCaptures(s, 0) == []
  {
    NoMatchNoCaptures(s, 0);
  }

  /** A text without a newline yields no submodule, so a last line without "\n" is never captured. */
  lemma NoNewlineNoModules(content: string)
    requires '\n' !in content
    ensures MatchModules(content) == []
  {
    ScanFindsAll(content, 0);
    NoNewlineNoCaptures(content);
  }

  /** The entries of a project's `.gitmodules` lie under the project directory. */
  lemma SubmodulesBesideFile(dir: string, content: string)
    ensures forall c :: c in FindSubmodules(Join(dir, ".gitmodules"), content) ==> c.isDir && c.path == Join(dir, c.name)
  {
    DirnameJoin(dir, ".gitmodules");
  }

  /** A newline at `i` is preceded by a carriage return. */
  predicate CrlfAt(s: string, i: nat)
  {
    i < |s| && s[i] == '\n' ==> 0 < i && s[i - 1] == '\r'
  }

  /** A run followed by "\n" would end in "\r" or follow the marker's final space: neither is possible. */
  lemma CrlfNoMatch(s: string, p: nat)
    requires p < |s|
    requires forall i: nat :: CrlfAt(s, i)
    ensures MatchAt(s, p) == None
  {
    var n := RunLength(s, p);
    RunSpaceFree(s, p);
    assert CrlfAt(s, p + n);
    assert 0 < n ==> !IsSpace(s[p + n - 1]);
    assert p + n < |s| && s[p + n] == '\n' ==> 0 < p + n && s[p + n - 1] == '\r';
  }

  /** Where no position matches, the every-position reading captures nothing. */
  lemma {:induction false} NoMatchNoCaptures(s: string, p: nat)
    requires p <= |s|
    requires forall q :: p <= q < |s| ==> CaptureAt(s, q) == []
    ensures AllCaptures(s, p) == []
    decreases |s| - p
  {
    if p < |s| {
      NoMatchNoCaptures(s, p + 1);
    }
  }

  lemma CrlfNoCaptures(s: string)
    requires forall i: nat :: CrlfAt(s, i)
    ensures AllCaptures(s, 0) == []
  {
    forall q | 0 <= q < |s|
      ensures CaptureAt(s, q) == []
    {
      CrlfNoMatch(s, q);
    }
    NoMatchNoCaptures(s, 0);
  }

  lemma CrlfNoModules(content: string)
    requires forall i: nat :: CrlfAt(content, i)
    ensures MatchModules(content) == []
  {
    ScanFindsAll(content, 0);
    CrlfNoCaptures(content);
  }

  /** A maximal space-free run is what `RunLength` measures. */
  lemma {:induction false} RunLengthOf(s: string, p: nat, n: nat)
    requires p + n <= |s|
    requires forall i :: p <= i < p + n ==> !IsSpace(s[i])
    requires p + n == |s| || IsSpace(s[p + n])
    ensures RunLength(s, p) == n
    decreases n
  {
    if n > 0 {
      RunLengthOf(s, p + 1, n - 1);
    }
  }

  /** The usual `.gitmodules` line yields its path. */
  lemma PathLineScenario()
    ensures "libs/foo" in MatchModules("\tpath = libs/foo\n")
  {
    var content := "\tpath = libs/foo\n";
    assert MarkerBefore(content, 8);
    assert content[8..16] == "libs/foo";
    assert forall i :: 8 <= i < 16 ==> !IsSpace(content[i]) by {
      forall i | 8 <= i < 16 ensures !IsSpace(content[i]) {
        assert content[i] == "libs/foo"[i - 8];
      }
    }
    RunLengthOf(content, 8, 8);
    MatchModulesComplete(content, 8);
  }

  /** A line `path = ` with nothing before the newline captures the empty string. */
  lemma EmptyPathScenario()
    ensures "" in MatchModules("path = \n")
  {
    var e := "path = \n";
    assert MarkerBefore(e, 7);
    RunLengthOf(e, 7, 0);
    MatchModulesComplete(e, 7);
    assert e[7..7] == "";
  }

  /** A line `path = .` captures ".". */
  lemma DotPathScenario()
    ensures "." in MatchModules("path = .\n")
  {
    var d := "path = .\n";
    assert MarkerBefore(d, 7);
    RunLengthOf(d, 7, 1);
    MatchModulesComplete(d, 7);
    assert d[7..8] == ".";
  }
}
