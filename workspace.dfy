/**
 * The workspace preference: one string naming several root directories,
 * separated by ASCII or full-width commas, whose leading `~` stands for the
 * home directory (`workspace.replace(/^~/, HOME).split(/,|，/)`).
 */
module Workspace {

  /** The separators of the split: "," and the full-width comma U+FF0C. */
  predicate IsSeparator(c: char)
  {
    c == ',' || c == '\U{FF0C}'
  }

  predicate NoSeparator(s: string)
  {
    forall i :: 0 <= i < |s| ==> !IsSeparator(s[i])
  }

  /** `replace(/^~/, home)`: only a tilde at the very start of the string is replaced, and only once. */
  function ExpandHome(s: string, home: string): string
  {
    if |s| > 0 && s[0] == '~' then home + s[1..] else s
  }

  /**
   * `split(/,|，/)`: the pieces between separators, in order. The empty
   * string gives one empty piece, and adjacent separators give empty
   * pieces between them.
   */
  function Split(s: string): (r: seq<string>)
    ensures |r| >= 1
    decreases |s|
  {
    if s == [] then [""]
    else
      var rest := Split(s[1..]);
      if IsSeparator(s[0]) then [""] + rest else [[s[0]] + rest[0]] + rest[1..]
  }

  /** The workspace roots to search. */
  function Workspaces(workspace: string, home: string): seq<string>
  {
    Split(ExpandHome(workspace, home))
  }

  function CountSeparators(s: string): nat
    decreases |s|
  {
    if s == [] then 0 else (if IsSeparator(s[0]) then 1 else 0) + CountSeparators(s[1..])
  }

  /** The pieces joined back with ",". */
  function JoinComma(parts: seq<string>): string
  {
    if parts == [] then "" else parts[0] + CommaEach(parts[1..])
  }

  /** Each piece preceded by ",". */
  function CommaEach(parts: seq<string>): string
    decreases |parts|
  {
    if parts == [] then "" else "," + parts[0] + CommaEach(parts[1..])
  }

  /** `s` with every full-width comma written as ",". */
  function Normalize(s: string): (r: string)
    ensures |r| == |s|
    decreases |s|
  {
    if s == [] then [] else [if IsSeparator(s[0]) then ',' else s[0]] + Normalize(s[1..])
  }

  /** A leading tilde becomes the home directory; every later character keeps its place from the end. */
  lemma ExpandHomeShape(s: string, home: string)
    ensures |s| > 0 && s[0] == '~' ==> ExpandHome(s, home)[..|home|] == home
    ensures |s| > 0 && s[0] == '~' ==> |ExpandHome(s, home)| == |home| + |s| - 1
    ensures !(|s| > 0 && s[0] == '~') ==> ExpandHome(s, home) == s
    ensures forall i :: 1 <= i < |s| ==> ExpandHome(s, home)[|ExpandHome(s, home)| - |s| + i] == s[i]
  {
  }

  /** There is one piece more than there are separators. */
  lemma {:induction false} SplitCount(s: string)
    ensures |Split(s)| == CountSeparators(s) + 1
    decreases |s|
  {
    if s != [] {
      SplitCount(s[1..]);
    }
  }

  /** No piece contains a separator. */
  lemma {:induction false} SplitPiecesClean(s: string)
    ensures forall i :: 0 <= i < |Split(s)| ==> NoSeparator(Split(s)[i])
    decreases |s|
  {
    if s != [] {
      SplitPiecesClean(s[1..]);
      var rest := Split(s[1..]);
      if !IsSeparator(s[0]) {
        var head := [s[0]] + rest[0];
        assert NoSeparator(rest[0]);
        assert forall k :: 1 <= k < |head| ==> head[k] == rest[0][k - 1];
        assert NoSeparator(head);
        assert Split(s) == [head] + rest[1..];
      }
    }
  }

  lemma JoinConsHead(c: char, parts: seq<string>)
    requires |parts| >= 1
    ensures JoinComma([[c] + parts[0]] + parts[1..]) == [c] + JoinComma(parts)
  {
    var q := [[c] + parts[0]] + parts[1..];
    assert q[0] == [c] + parts[0] && q[1..] == parts[1..];
    assert ([c] + parts[0]) + CommaEach(parts[1..]) == [c] + (parts[0] + CommaEach(parts[1..]));
  }

  lemma CommaEachJoin(parts: seq<string>)
    requires parts != []
    ensures CommaEach(parts) == "," + JoinComma(parts)
  {
    assert "," + parts[0] + CommaEach(parts[1..]) == "," + (parts[0] + CommaEach(parts[1..]));
  }

  /** Joining the pieces with "," gives back the string, with full-width commas written as ",". */
  lemma {:induction false} JoinSplit(s: string)
    ensures JoinComma(Split(s)) == Normalize(s)
    decreases |s|
  {
    if s != [] {
      var rest := Split(s[1..]);
      JoinSplit(s[1..]);
      if IsSeparator(s[0]) {
        assert ([""] + rest)[1..] == rest;
        calc {
          JoinComma(Split(s));
          JoinComma([""] + rest);
          "" + CommaEach(rest);
          { CommaEachJoin(rest); }
          "," + JoinComma(rest);
          [','] + Normalize(s[1..]);
          Normalize(s);
        }
      } else {
        calc {
          JoinComma(Split(s));
          JoinComma([[s[0]] + rest[0]] + rest[1..]);
          { JoinConsHead(s[0], rest); }
          [s[0]] + JoinComma(rest);
          [s[0]] + Normalize(s[1..]);
          Normalize(s);
        }
      }
    }
  }

  /** Splitting a separator-free prefix glued to a string extends that string's first piece. */
  lemma {:induction false} SplitPrefix(x: string, y: string)
    requires NoSeparator(x)
    ensures Split(x + y) == [x + Split(y)[0]] + Split(y)[1..]
    decreases |x|
  {
    if x != [] {
      var t := x[1..];
      assert NoSeparator(t) by {
        forall k | 0 <= k < |t| ensures !IsSeparator(t[k]) {
          assert t[k] == x[k + 1];
        }
      }
      assert !IsSeparator(x[0]);
      assert (x + y)[0] == x[0] && (x + y)[1..] == t + y;
      SplitPrefix(t, y);
      var rest := Split(t + y);
      assert rest == [t + Split(y)[0]] + Split(y)[1..];
      assert [x[0]] + (t + Split(y)[0]) == x + Split(y)[0];
    } else {
      assert x + y == y;
      assert x + Split(y)[0] == Split(y)[0];
      assert [Split(y)[0]] + Split(y)[1..] == Split(y);
    }
  }

  /** Pieces free of separators survive a join followed by a split. */
  lemma {:induction false} SplitJoin(parts: seq<string>)
    requires |parts| >= 1
    requires forall i :: 0 <= i < |parts| ==> NoSeparator(parts[i])
    ensures Split(JoinComma(parts)) == parts
    decreases |parts|
  {
    var p := parts[0];
    if |parts| == 1 {
      calc {
        Split(JoinComma(parts));
        { assert parts[1..] == []; assert p + "" == p; }
        Split(p + "");
        { SplitPrefix(p, ""); }
        [p + Split("")[0]] + Split("")[1..];
        { assert Split("") == [""]; }
        [p + ""] + [];
        { assert p + "" == p; }
        [p];
        parts;
      }
    } else {
      var tail := parts[1..];
      var j := JoinComma(tail);
      var after := Split("," + j);
      assert ("," + j)[0] == ',' && ("," + j)[1..] == j;
      assert after == [""] + Split(j);
      assert after[0] == "" && after[1..] == Split(j);
      calc {
        Split(JoinComma(parts));
        Split(p + CommaEach(tail));
        { CommaEachJoin(tail); }
        Split(p + ("," + j));
        { SplitPrefix(p, "," + j); }
        [p + after[0]] + after[1..];
        { assert p + "" == p; }
        [p] + Split(j);
        { SplitJoin(tail); }
        [p] + tail;
        parts;
      }
    }
  }
}
