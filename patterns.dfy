/**
 * The fragment of JavaScript regular expressions that the classifier's
 * file-name patterns use, matched as `new RegExp("^(" + p + ")$", "i")`
 * matches: literal characters compared with ASCII case folding, `.` for any
 * character except a line terminator, and `X*` for zero or more of the atom
 * `X`. Alternation over several patterns is `MatchesAny`.
 */
module Patterns {
  import opened Text

  /** The characters `.` does not match without the `s` flag. */
  predicate IsLineTerminator(c: char)
  {
    c == '\n' || c == '\r' || c == '\U{2028}' || c == '\U{2029}'
  }

  predicate NoLineTerminator(s: string)
  {
    forall i :: 0 <= i < |s| ==> !IsLineTerminator(s[i])
  }

  /** One pattern atom against one character, case-insensitively. */
  predicate AtomMatches(a: char, c: char)
  {
    if a == '.' then !IsLineTerminator(c) else Lower(a) == Lower(c)
  }

  /** `p` matches the whole of `s` (the anchored, case-insensitive test). */
  predicate FullMatch(p: string, s: string)
    decreases |p|, |s|
  {
    if |p| == 0 then |s| == 0
    else if |p| >= 2 && p[1] == '*' then
      FullMatch(p[2..], s) || (|s| > 0 && AtomMatches(p[0], s[0]) && FullMatch(p, s[1..]))
    else
      |s| > 0 && AtomMatches(p[0], s[0]) && FullMatch(p[1..], s[1..])
  }

  /** `^(p0|p1|...)$` matches `s`. */
  predicate MatchesAny(patterns: seq<string>, s: string)
  {
    exists p :: p in patterns && FullMatch(p, s)
  }

  /** A pattern without `*` matches exactly the strings of its length whose characters its atoms accept. */
  lemma {:induction false} StarFreeMatch(p: string, s: string)
    requires '*' !in p
    ensures FullMatch(p, s) <==> |s| == |p| && forall i :: 0 <= i < |p| ==> AtomMatches(p[i], s[i])
  {
    if |p| > 0 && |s| > 0 {
      assert '*' !in p[1..] by { assert forall i :: 0 <= i < |p[1..]| ==> p[1..][i] == p[i + 1]; }
      StarFreeMatch(p[1..], s[1..]);
      if |s| == |p| && forall i :: 0 <= i < |p| ==> AtomMatches(p[i], s[i]) {
        forall i | 0 <= i < |p[1..]| ensures AtomMatches(p[1..][i], s[1..][i]) {
          assert AtomMatches(p[i + 1], s[i + 1]);
        }
      }
      if FullMatch(p, s) {
        forall i | 0 <= i < |p| ensures AtomMatches(p[i], s[i]) {
          if i > 0 { assert AtomMatches(p[1..][i - 1], s[1..][i - 1]); }
        }
      }
    }
  }

  /** A pattern without `*` matches itself. */
  lemma StarFreeMatchesItself(p: string)
    requires '*' !in p
    ensures FullMatch(p, p)
  {
    StarFreeMatch(p, p);
  }

  /** A pattern with neither `.` nor `*` is case-insensitive string equality. */
  lemma LiteralMatch(p: string, s: string)
    requires '*' !in p && '.' !in p
    ensures FullMatch(p, s) <==> EqualFolded(s, p)
  {
    StarFreeMatch(p, s);
  }

  /** `.*q` matches `s` exactly when some prefix free of line terminators is followed by a match of `q`. */
  lemma {:induction false} DotStarMatch(q: string, s: string)
    ensures FullMatch(".*" + q, s) <==>
      exists k :: 0 <= k <= |s| && NoLineTerminator(s[..k]) && FullMatch(q, s[k..])
  {
    var p := ".*" + q;
    assert p[2..] == q;
    if |s| == 0 {
      if FullMatch(q, s) { assert NoLineTerminator(s[..0]) && s[0..] == s; }
    } else {
      DotStarMatch(q, s[1..]);
      if FullMatch(p, s) {
        if FullMatch(q, s) {
          assert NoLineTerminator(s[..0]) && s[0..] == s;
        } else {
          assert !IsLineTerminator(s[0]) && FullMatch(p, s[1..]);
          var k' :| 0 <= k' <= |s[1..]| && NoLineTerminator(s[1..][..k']) && FullMatch(q, s[1..][k'..]);
          assert s[k' + 1..] == s[1..][k'..];
          assert NoLineTerminator(s[..k' + 1]) by {
            forall i | 0 <= i < k' + 1 ensures !IsLineTerminator(s[i]) {
              if i > 0 { assert s[i] == s[1..][..k'][i - 1]; }
            }
          }
        }
      }
      if exists k :: 0 <= k <= |s| && NoLineTerminator(s[..k]) && FullMatch(q, s[k..]) {
        var k :| 0 <= k <= |s| && NoLineTerminator(s[..k]) && FullMatch(q, s[k..]);
        if k == 0 {
          assert s[0..] == s;
        } else {
          assert !IsLineTerminator(s[..k][0]);
          assert s[1..][k - 1..] == s[k..];
          var t := s[1..][..k - 1];
          assert NoLineTerminator(t) by {
            forall i | 0 <= i < |t| ensures !IsLineTerminator(t[i]) {
              assert t[i] == s[..k][i + 1];
            }
          }
          assert FullMatch(p, s[1..]);
        }
      }
    }
  }

  /** `.q` matches one non-line-terminator followed by a match of `q`, when `q` does not start with `*`. */
  lemma DotThenMatch(q: string, t: string)
    requires q == [] || q[0] != '*'
    ensures FullMatch("." + q, t) <==> |t| > 0 && !IsLineTerminator(t[0]) && FullMatch(q, t[1..])
  {
    assert ("." + q)[1..] == q;
  }

  /** `.q`, for a literal `q`, matches one non-line-terminator followed by `q` in any case. */
  lemma DotLiteralMatch(q: string, t: string)
    requires '*' !in q && '.' !in q
    ensures FullMatch("." + q, t) <==> |t| == |q| + 1 && !IsLineTerminator(t[0]) && EqualFolded(t[1..], q)
  {
    assert q == [] || q[0] in q;
    DotThenMatch(q, t);
    if |t| > 0 {
      LiteralMatch(q, t[1..]);
    }
  }

  /** Splitting a name before its last `n + 1` characters: the line-terminator and suffix tests move across the split. */
  lemma {:induction false} SplitBeforeSuffix(s: string, k: nat, q: string)
    requires k + |q| + 1 == |s|
    ensures NoLineTerminator(s[..k]) && !IsLineTerminator(s[k..][0]) && EqualFolded(s[k..][1..], q) <==>
      NoLineTerminator(s[..|s| - |q|]) && EqualFolded(s[|s| - |q|..], q)
  {
    assert s[k..][1..] == s[|s| - |q|..];
    var u := s[..|s| - |q|];
    assert u[..k] == s[..k];
    assert u[k] == s[k..][0];
    if NoLineTerminator(s[..k]) && !IsLineTerminator(s[k..][0]) {
      forall i | 0 <= i < |u|
        ensures !IsLineTerminator(u[i])
      {
        if i < k { assert u[i] == s[..k][i]; }
      }
    }
    if NoLineTerminator(u) {
      forall i | 0 <= i < k
        ensures !IsLineTerminator(s[..k][i])
      {
        assert s[..k][i] == u[i];
      }
    }
  }

  /** A name that `.*.q` matches ends in `q` and has no line terminator before it. */
  lemma DotStarSuffixSound(q: string, s: string)
    requires '*' !in q && '.' !in q
    requires FullMatch(".*" + ("." + q), s)
    ensures |s| >= |q| + 1 && NoLineTerminator(s[..|s| - |q|]) && EqualFolded(s[|s| - |q|..], q)
  {
    DotStarMatch("." + q, s);
    var k :| 0 <= k <= |s| && NoLineTerminator(s[..k]) && FullMatch("." + q, s[k..]);
    DotLiteralMatch(q, s[k..]);
    SplitBeforeSuffix(s, k, q);
  }

  /** Every name that ends in `q` and has no line terminator before it is matched by `.*.q`. */
  lemma DotStarSuffixComplete(q: string, s: string)
    requires '*' !in q && '.' !in q
    requires |s| >= |q| + 1 && NoLineTerminator(s[..|s| - |q|]) && EqualFolded(s[|s| - |q|..], q)
    ensures FullMatch(".*" + ("." + q), s)
  {
    var k := |s| - |q| - 1;
    SplitBeforeSuffix(s, k, q);
    DotLiteralMatch(q, s[k..]);
    DotStarMatch("." + q, s);
  }

  /** `.*.q`, for a literal `q`, matches the names ending in `q` with no line terminator before it. */
  lemma DotStarSuffixMatch(q: string, s: string)
    requires '*' !in q && '.' !in q
    ensures FullMatch(".*" + ("." + q), s) <==>
      |s| >= |q| + 1 && NoLineTerminator(s[..|s| - |q|]) && EqualFolded(s[|s| - |q|..], q)
  {
    if FullMatch(".*" + ("." + q), s) {
      DotStarSuffixSound(q, s);
    }
    if |s| >= |q| + 1 && NoLineTerminator(s[..|s| - |q|]) && EqualFolded(s[|s| - |q|..], q) {
      DotStarSuffixComplete(q, s);
    }
  }

  /** The Xcode pattern is `.*.` followed by a literal. */
  lemma XcodeprojPattern()
    ensures ".*.xcodeproj" == ".*" + ("." + "xcodeproj")
    ensures '*' !in "xcodeproj" && '.' !in "xcodeproj"
  {
  }

  /**
   * The classifier's Xcode pattern `.*.xcodeproj` matches every name of at
   * least ten characters that ends in "xcodeproj" (any case) and has no line
   * terminator before that suffix.
   */
  lemma XcodeprojMatch(s: string)
    ensures FullMatch(".*.xcodeproj", s) <==>
      |s| >= 10 && NoLineTerminator(s[..|s| - 9]) && EqualFolded(s[|s| - 9..], "xcodeproj")
  {
    XcodeprojPattern();
    DotStarSuffixMatch("xcodeproj", s);
  }
}
