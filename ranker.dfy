/**
 * The search ranker: keep the projects whose name contains the keyword
 * (ignoring case), then list those whose name starts with the keyword
 * before the others, each tier sorted by hits, most first, with equal
 * counts kept in input order.
 */
module Ranker {
  import opened Types
  import opened Text

  /** The elements of `s` that `keep` accepts, in order (`Array.prototype.filter`). */
  function Filter(s: seq<Project>, keep: Project -> bool): (r: seq<Project>)
    ensures |r| <= |s|
  {
    if s == [] then []
    else Filter(s[..|s| - 1], keep) + (if keep(s[|s| - 1]) then [s[|s| - 1]] else [])
  }

  /** The filter keeps exactly the accepted elements. */
  lemma {:induction false} FilterMembers(s: seq<Project>, keep: Project -> bool)
    ensures forall x :: x in Filter(s, keep) <==> x in s && keep(x)
  {
    if s != [] {
      FilterMembers(s[..|s| - 1], keep);
      assert s == s[..|s| - 1] + [s[|s| - 1]];
    }
  }

  function Matching(keyword: string): Project -> bool
  {
    (p: Project) => ContainsFolded(p.name, keyword)
  }

  function StartingWith(keyword: string): Project -> bool
  {
    (p: Project) => StartsWith(p.name, keyword)
  }

  function NotStartingWith(keyword: string): Project -> bool
  {
    (p: Project) => !StartsWith(p.name, keyword)
  }

  function HitsIs(h: nat): Project -> bool
  {
    (p: Project) => p.hits == h
  }

  /** Non-increasing in hits. */
  predicate Sorted(s: seq<Project>)
  {
    forall i, j :: 0 <= i < j < |s| ==> s[i].hits >= s[j].hits
  }

  /** `x` placed after every element of `t` with at least as many hits, counting from the back. */
  function Insert(t: seq<Project>, x: Project): (r: seq<Project>)
    ensures |r| == |t| + 1
  {
    if t == [] then [x]
    else if t[|t| - 1].hits >= x.hits then t + [x]
    else Insert(t[..|t| - 1], x) + [t[|t| - 1]]
  }

  /**
   * `sort((a, b) => b.hits - a.hits)`: a stable sort by hits, most first,
   * written as insertion of each element in turn.
   */
  function SortByHits(s: seq<Project>): (r: seq<Project>)
    ensures |r| == |s|
  {
    if s == [] then [] else Insert(SortByHits(s[..|s| - 1]), s[|s| - 1])
  }

  /** `filterProject`'s result: the starting tier sorted, then the other tier sorted. */
  function Rank(projectList: seq<Project>, keyword: string): seq<Project>
  {
    var result := Filter(projectList, Matching(keyword));
    SortByHits(Filter(result, StartingWith(keyword))) + SortByHits(Filter(result, NotStartingWith(keyword)))
  }

  /** `Array.prototype.sort` with the hits comparator, in place, as an insertion sort. */
  method SortHits(a: array<Project>)
    modifies a
    ensures a[..] == SortByHits(old(a[..]))
  {
    ghost var s := a[..];
    for i := 0 to a.Length
      invariant a[..i] == SortByHits(s[..i])
      invariant a[i..] == s[i..]
    {
      assert s[..i + 1] == s[..i] + [s[i]];
      InsertAt(a, i);
      assert a[i + 1..] == s[i + 1..];
    }
    assert s[..a.Length] == s;
  }

  /** Moves `a[i]` back past the elements of `a[..i]` with fewer hits. */
  method InsertAt(a: array<Project>, i: nat)
    requires i < a.Length
    modifies a
    ensures a[..i + 1] == Insert(old(a[..i]), old(a[i]))
    ensures a[i + 1..] == old(a[i + 1..])
  {
    ghost var t := a[..i];
    ghost var rest := a[i + 1..];
    var x := a[i];
    var j := i;
    while j > 0 && a[j - 1].hits < x.hits
      invariant 0 <= j <= i
      invariant forall k :: 0 <= k < j ==> a[k] == t[k]
      invariant forall k :: j < k <= i ==> a[k] == t[k - 1]
      invariant forall k :: j <= k < i ==> t[k].hits < x.hits
      invariant a[i + 1..] == rest
    {
      a[j] := a[j - 1];
      j := j - 1;
    }
    a[j] := x;
    InsertSplit(t, j, x);
    Placed(a[..i + 1], t, x, j);
  }

  /** Inserting `x` lands it after the last element with at least its hits. */
  lemma {:induction false} InsertSplit(t: seq<Project>, j: nat, x: Project)
    requires j <= |t| && (j == 0 || t[j - 1].hits >= x.hits)
    requires forall k :: j <= k < |t| ==> t[k].hits < x.hits
    ensures Insert(t, x) == t[..j] + [x] + t[j..]
    decreases |t|
  {
    if j < |t| {
      var init := t[..|t| - 1];
      var last := t[|t| - 1];
      assert last.hits < x.hits;
      calc {
        Insert(t, x);
        Insert(init, x) + [last];
        { InsertSplit(init, j, x); }
        init[..j] + [x] + init[j..] + [last];
        (init[..j] + [x]) + (init[j..] + [last]);
        { assert init[..j] == t[..j]; assert t[j..] == init[j..] + [last]; }
        t[..j] + [x] + t[j..];
      }
    } else {
      assert t[..j] == t && t[j..] == [];
    }
  }

  lemma Placed(now: seq<Project>, t: seq<Project>, x: Project, j: nat)
    requires |now| == |t| + 1 && j <= |t|
    requires forall k :: 0 <= k < j ==> now[k] == t[k]
    requires now[j] == x
    requires forall k :: j < k <= |t| ==> now[k] == t[k - 1]
    ensures now == t[..j] + [x] + t[j..]
  {
    ghost var placed := t[..j] + [x] + t[j..];
    forall k | 0 <= k < |now| ensures now[k] == placed[k] {
      if k < j {
        assert placed[k] == t[..j][k];
      } else if j < k {
        assert placed[k] == t[j..][k - j - 1];
      }
    }
  }

  /** `filterProject`. */
  method FilterProject(projectList: seq<Project>, keyword: string) returns (r: seq<Project>)
    ensures r == Rank(projectList, keyword)
  {
    var result := Filter(projectList, Matching(keyword));
    var startMatch: seq<Project> := [];
    var otherMatch: seq<Project> := [];
    for i := 0 to |result|
      invariant startMatch == Filter(result[..i], StartingWith(keyword))
      invariant otherMatch == Filter(result[..i], NotStartingWith(keyword))
    {
      var item := result[i];
      assert result[..i + 1][..i] == result[..i];
      if StartsWith(item.name, keyword) {
        startMatch := startMatch + [item];
      } else {
        otherMatch := otherMatch + [item];
      }
    }
    assert result[..|result|] == result;
    var starts := new Project[|startMatch|](i requires 0 <= i < |startMatch| => startMatch[i]);
    var others := new Project[|otherMatch|](i requires 0 <= i < |otherMatch| => otherMatch[i]);
    assert starts[..] == startMatch;
    assert others[..] == otherMatch;
    SortHits(starts);
    SortHits(others);
    r := starts[..] + others[..];
  }

  lemma InsertPermutes(t: seq<Project>, x: Project)
    ensures multiset(Insert(t, x)) == multiset(t) + multiset{x}
    decreases |t|
  {
    if t != [] && t[|t| - 1].hits < x.hits {
      InsertPermutes(t[..|t| - 1], x);
      assert t == t[..|t| - 1] + [t[|t| - 1]];
    }
  }

  /** The sort returns a permutation of its input. */
  lemma {:induction false} SortPermutes(s: seq<Project>)
    ensures multiset(SortByHits(s)) == multiset(s)
  {
    if s != [] {
      var init := s[..|s| - 1];
      var last := s[|s| - 1];
      assert s == init + [last];
      calc {
        multiset(SortByHits(s));
        multiset(Insert(SortByHits(init), last));
        { InsertPermutes(SortByHits(init), last); }
        multiset(SortByHits(init)) + multiset{last};
        { SortPermutes(init); }
        multiset(init) + multiset{last};
        multiset(s);
      }
    }
  }

  lemma {:induction false} InsertSorted(t: seq<Project>, x: Project)
    requires Sorted(t)
    ensures Sorted(Insert(t, x))
    decreases |t|
  {
    if t != [] && t[|t| - 1].hits < x.hits {
      var init := t[..|t| - 1];
      var last := t[|t| - 1];
      InsertSorted(init, x);
      InsertPermutes(init, x);
      var u := Insert(init, x);
      forall k | 0 <= k < |u| ensures u[k].hits >= last.hits {
        assert u[k] in multiset(u);
        if u[k] != x {
          assert u[k] in init;
        }
      }
    }
  }

  /** The sort's result is ordered by hits, most first. */
  lemma {:induction false} SortSorted(s: seq<Project>)
    ensures Sorted(SortByHits(s))
  {
    if s != [] {
      SortSorted(s[..|s| - 1]);
      InsertSorted(SortByHits(s[..|s| - 1]), s[|s| - 1]);
    }
  }

  lemma FilterAppend(a: seq<Project>, b: seq<Project>, keep: Project -> bool)
    ensures Filter(a + b, keep) == Filter(a, keep) + Filter(b, keep)
    decreases |b|
  {
    if b != [] {
      assert (a + b)[..|a + b| - 1] == a + b[..|b| - 1];
      FilterAppend(a, b[..|b| - 1], keep);
    } else {
      assert a + b == a;
    }
  }

  lemma FilterSnoc(t: seq<Project>, x: Project, keep: Project -> bool)
    ensures Filter(t + [x], keep) == Filter(t, keep) + (if keep(x) then [x] else [])
  {
    assert (t + [x])[..|t|] == t;
  }

  lemma {:induction false} FilterInsert(t: seq<Project>, x: Project, h: nat)
    ensures Filter(Insert(t, x), HitsIs(h)) == Filter(t + [x], HitsIs(h))
    decreases |t|
  {
    if t == [] {
      assert Insert(t, x) == t + [x];
    } else if t[|t| - 1].hits < x.hits {
      var keep := HitsIs(h);
      var init := t[..|t| - 1];
      var last := t[|t| - 1];
      var u := Insert(init, x);
      var xs := if keep(x) then [x] else [];
      var ls := if keep(last) then [last] else [];
      assert xs == [] || ls == [];
      assert t == init + [last];
      calc {
        Filter(Insert(t, x), keep);
        Filter(u + [last], keep);
        { FilterSnoc(u, last, keep); }
        Filter(u, keep) + ls;
        { FilterInsert(init, x, h); }
        Filter(init + [x], keep) + ls;
        { FilterSnoc(init, x, keep); }
        Filter(init, keep) + xs + ls;
        Filter(init, keep) + ls + xs;
        { FilterSnoc(init, last, keep); }
        Filter(t, keep) + xs;
        { FilterSnoc(t, x, keep); }
        Filter(t + [x], keep);
      }
    }
  }

  /** The sort is stable: the elements with any one hit count keep their input order. */
  lemma {:induction false} SortStable(s: seq<Project>, h: nat)
    ensures Filter(SortByHits(s), HitsIs(h)) == Filter(s, HitsIs(h))
  {
    if s != [] {
      var keep := HitsIs(h);
      var init := s[..|s| - 1];
      var last := s[|s| - 1];
      var ls := if keep(last) then [last] else [];
      assert s == init + [last];
      calc {
        Filter(SortByHits(s), keep);
        Filter(Insert(SortByHits(init), last), keep);
        { FilterInsert(SortByHits(init), last, h); }
        Filter(SortByHits(init) + [last], keep);
        { FilterSnoc(SortByHits(init), last, keep); }
        Filter(SortByHits(init), keep) + ls;
        { SortStable(init, h); }
        Filter(init, keep) + ls;
        { FilterSnoc(init, last, keep); }
        Filter(s, keep);
      }
    }
  }

  /** One more element goes to exactly one side of a partition. */
  lemma PartitionStep(init: seq<Project>, last: Project, yes: Project -> bool, no: Project -> bool)
    requires no(last) == !yes(last)
    ensures multiset(Filter(init + [last], yes)) + multiset(Filter(init + [last], no)) ==
            multiset(Filter(init, yes)) + multiset(Filter(init, no)) + multiset{last}
  {
    var fy, fn := Filter(init, yes), Filter(init, no);
    FilterSnoc(init, last, yes);
    FilterSnoc(init, last, no);
    if yes(last) {
      assert Filter(init + [last], yes) == fy + [last] && Filter(init + [last], no) == fn;
      assert multiset(fy + [last]) == multiset(fy) + multiset{last};
    } else {
      assert Filter(init + [last], yes) == fy && Filter(init + [last], no) == fn + [last];
      assert multiset(fn + [last]) == multiset(fn) + multiset{last};
    }
  }

  /** Filtering by a test and by its negation splits the elements between the two results. */
  lemma {:induction false} FilterPartition(s: seq<Project>, yes: Project -> bool, no: Project -> bool)
    requires forall p :: no(p) == !yes(p)
    ensures multiset(Filter(s, yes)) + multiset(Filter(s, no)) == multiset(s)
  {
    if s != [] {
      var init, last := s[..|s| - 1], s[|s| - 1];
      assert s == init + [last];
      calc {
        multiset(Filter(s, yes)) + multiset(Filter(s, no));
        { PartitionStep(init, last, yes, no); }
        multiset(Filter(init, yes)) + multiset(Filter(init, no)) + multiset{last};
        { FilterPartition(init, yes, no); }
        multiset(init) + multiset{last};
        multiset(s);
      }
    }
  }

  lemma FilterSplits(s: seq<Project>, keyword: string)
    ensures multiset(Filter(s, StartingWith(keyword))) + multiset(Filter(s, NotStartingWith(keyword))) == multiset(s)
  {
    FilterPartition(s, StartingWith(keyword), NotStartingWith(keyword));
  }

  /** The sort keeps exactly the elements it is given. */
  lemma SortMembers(s: seq<Project>)
    ensures forall x :: x in SortByHits(s) <==> x in s
  {
    SortPermutes(s);
    forall x ensures x in SortByHits(s) <==> x in s {
      assert x in SortByHits(s) <==> x in multiset(SortByHits(s));
      assert x in s <==> x in multiset(s);
    }
  }

  /** The ranked list is a permutation of the projects whose name contains the keyword. */
  lemma RankPermutes(projectList: seq<Project>, keyword: string)
    ensures multiset(Rank(projectList, keyword)) == multiset(Filter(projectList, Matching(keyword)))
  {
    var result := Filter(projectList, Matching(keyword));
    var sa := Filter(result, StartingWith(keyword));
    var sb := Filter(result, NotStartingWith(keyword));
    calc {
      multiset(Rank(projectList, keyword));
      multiset(SortByHits(sa) + SortByHits(sb));
      multiset(SortByHits(sa)) + multiset(SortByHits(sb));
      { SortPermutes(sa); SortPermutes(sb); }
      multiset(sa) + multiset(sb);
      { FilterSplits(result, keyword); }
      multiset(result);
    }
  }

  /** A project is ranked exactly when it is listed and its name contains the keyword. */
  lemma RankMembers(projectList: seq<Project>, keyword: string)
    ensures forall p :: p in Rank(projectList, keyword) <==> p in projectList && ContainsFolded(p.name, keyword)
  {
    var result := Filter(projectList, Matching(keyword));
    RankPermutes(projectList, keyword);
    FilterMembers(projectList, Matching(keyword));
    forall p ensures p in Rank(projectList, keyword) <==> p in result {
      assert p in Rank(projectList, keyword) <==> p in multiset(Rank(projectList, keyword));
      assert p in result <==> p in multiset(result);
    }
    assert forall p :: Matching(keyword)(p) == ContainsFolded(p.name, keyword);
  }

  /** The tiers: every element of the first sorted tier starts with the keyword, none of the second does. */
  lemma SortedTiers(result: seq<Project>, keyword: string)
    ensures forall x :: x in SortByHits(Filter(result, StartingWith(keyword))) ==> StartsWith(x.name, keyword)
    ensures forall x :: x in SortByHits(Filter(result, NotStartingWith(keyword))) ==> !StartsWith(x.name, keyword)
  {
    SortMembers(Filter(result, StartingWith(keyword)));
    SortMembers(Filter(result, NotStartingWith(keyword)));
    FilterMembers(result, StartingWith(keyword));
    FilterMembers(result, NotStartingWith(keyword));
    assert forall p :: StartingWith(keyword)(p) == StartsWith(p.name, keyword);
    assert forall p :: NotStartingWith(keyword)(p) == !StartsWith(p.name, keyword);
  }

  /** The first tier is all starting matches, the second none. */
  lemma RankTiers(projectList: seq<Project>, keyword: string)
    ensures var result := Filter(projectList, Matching(keyword));
            var n := |Filter(result, StartingWith(keyword))|;
            n <= |Rank(projectList, keyword)| &&
            (forall i :: 0 <= i < n ==> StartsWith(Rank(projectList, keyword)[i].name, keyword)) &&
            (forall i :: n <= i < |Rank(projectList, keyword)| ==> !StartsWith(Rank(projectList, keyword)[i].name, keyword))
  {
    var result := Filter(projectList, Matching(keyword));
    var a := SortByHits(Filter(result, StartingWith(keyword)));
    var b := SortByHits(Filter(result, NotStartingWith(keyword)));
    var r := a + b;
    SortedTiers(result, keyword);
    forall i | 0 <= i < |a| ensures StartsWith(r[i].name, keyword) {
      assert r[i] == a[i] && a[i] in a;
    }
    forall i | |a| <= i < |r| ensures !StartsWith(r[i].name, keyword) {
      assert r[i] == b[i - |a|] && b[i - |a|] in b;
    }
  }

  /** Every match whose name starts with the keyword precedes every other match. */
  lemma RankStartersFirst(projectList: seq<Project>, keyword: string)
    ensures var r := Rank(projectList, keyword);
            forall i, j :: 0 <= i < j < |r| && StartsWith(r[j].name, keyword) ==> StartsWith(r[i].name, keyword)
  {
    RankTiers(projectList, keyword);
  }

  /** Two sorted tiers, separated by the prefix test, give a list sorted within each tier. */
  lemma TiersOrdered(a: seq<Project>, b: seq<Project>, keyword: string)
    requires Sorted(a) && Sorted(b)
    requires forall x :: x in a ==> StartsWith(x.name, keyword)
    requires forall x :: x in b ==> !StartsWith(x.name, keyword)
    ensures var r := a + b;
            forall i, j :: 0 <= i < j < |r| && (StartsWith(r[i].name, keyword) == StartsWith(r[j].name, keyword)) ==>
              r[i].hits >= r[j].hits
  {
    var r := a + b;
    forall i, j | 0 <= i < j < |r|
      ensures StartsWith(r[i].name, keyword) == StartsWith(r[j].name, keyword) ==> r[i].hits >= r[j].hits
    {
      if j < |a| {
        assert r[i] == a[i] && r[j] == a[j];
      } else if |a| <= i {
        assert r[i] == b[i - |a|] && r[j] == b[j - |a|];
      } else {
        assert r[i] == a[i] && a[i] in a;
        assert r[j] == b[j - |a|] && b[j - |a|] in b;
        assert StartsWith(r[i].name, keyword) && !StartsWith(r[j].name, keyword);
      }
    }
  }

  /** Within a tier, hits never increase. */
  lemma RankOrdered(projectList: seq<Project>, keyword: string)
    ensures var r := Rank(projectList, keyword);
            forall i, j :: 0 <= i < j < |r| && (StartsWith(r[i].name, keyword) == StartsWith(r[j].name, keyword)) ==>
              r[i].hits >= r[j].hits
  {
    var result := Filter(projectList, Matching(keyword));
    SortedTiers(result, keyword);
    SortSorted(Filter(result, StartingWith(keyword)));
    SortSorted(Filter(result, NotStartingWith(keyword)));
    TiersOrdered(SortByHits(Filter(result, StartingWith(keyword))), SortByHits(Filter(result, NotStartingWith(keyword))), keyword);
  }

  lemma {:induction false} FilterAll(s: seq<Project>, keep: Project -> bool)
    requires forall x :: x in s ==> keep(x)
    ensures Filter(s, keep) == s
  {
    if s != [] {
      FilterAll(s[..|s| - 1], keep);
      assert s == s[..|s| - 1] + [s[|s| - 1]];
    }
  }

  lemma {:induction false} FilterNone(s: seq<Project>, keep: Project -> bool)
    requires forall x :: x in s ==> !keep(x)
    ensures Filter(s, keep) == []
  {
    if s != [] {
      FilterNone(s[..|s| - 1], keep);
    }
  }

  /** Restricting the ranked list to the starting tier gives the sorted starting tier, and likewise for the others. */
  lemma RankTierParts(result: seq<Project>, keyword: string)
    ensures var r := SortByHits(Filter(result, StartingWith(keyword))) + SortByHits(Filter(result, NotStartingWith(keyword)));
            Filter(r, StartingWith(keyword)) == SortByHits(Filter(result, StartingWith(keyword))) &&
            Filter(r, NotStartingWith(keyword)) == SortByHits(Filter(result, NotStartingWith(keyword)))
  {
    var a := SortByHits(Filter(result, StartingWith(keyword)));
    var b := SortByHits(Filter(result, NotStartingWith(keyword)));
    SortedTiers(result, keyword);
    FilterAppend(a, b, StartingWith(keyword));
    FilterAppend(a, b, NotStartingWith(keyword));
    FilterAll(a, StartingWith(keyword));
    FilterNone(b, StartingWith(keyword));
    FilterNone(a, NotStartingWith(keyword));
    FilterAll(b, NotStartingWith(keyword));
    assert a + [] == a;
    assert [] + b == b;
  }

  /** Within each tier, projects with equal hits keep the order they had in the input list. */
  lemma RankStable(projectList: seq<Project>, keyword: string, h: nat)
    ensures var result := Filter(projectList, Matching(keyword));
            Filter(Filter(Rank(projectList, keyword), StartingWith(keyword)), HitsIs(h)) ==
            Filter(Filter(result, StartingWith(keyword)), HitsIs(h))
    ensures var result := Filter(projectList, Matching(keyword));
            Filter(Filter(Rank(projectList, keyword), NotStartingWith(keyword)), HitsIs(h)) ==
            Filter(Filter(result, NotStartingWith(keyword)), HitsIs(h))
  {
    var result := Filter(projectList, Matching(keyword));
    RankTierParts(result, keyword);
    SortStable(Filter(result, StartingWith(keyword)), h);
    SortStable(Filter(result, NotStartingWith(keyword)), h);
  }

  /** For "foo", "foobar" ranks before "barfoo" even with fewer hits. */
  lemma PrefixBeatsHitsScenario()
    ensures Rank([Project("1", "barfoo", "/w/barfoo", "rust", 9, ""), Project("2", "foobar", "/w/foobar", "rust", 1, "")], "foo")
            == [Project("2", "foobar", "/w/foobar", "rust", 1, ""), Project("1", "barfoo", "/w/barfoo", "rust", 9, "")]
  {
    var bar := Project("1", "barfoo", "/w/barfoo", "rust", 9, "");
    var foo := Project("2", "foobar", "/w/foobar", "rust", 1, "");
    FooNames();
    var m, st, ns := Matching("foo"), StartingWith("foo"), NotStartingWith("foo");
    assert m(bar) && m(foo) && !st(bar) && st(foo) && ns(bar) && !ns(foo);
    var list := [bar, foo];
    assert list == [bar] + [foo] && [bar] == [] + [bar];
    FilterSnoc([], bar, m);
    FilterSnoc([bar], foo, m);
    FilterSnoc([], bar, st);
    FilterSnoc([bar], foo, st);
    FilterSnoc([], bar, ns);
    FilterSnoc([bar], foo, ns);
    assert Filter(list, m) == list;
    assert Filter(list, st) == [foo];
    assert Filter(list, ns) == [bar];
    SortSingle(foo);
    SortSingle(bar);
  }

  lemma SortSingle(x: Project)
    ensures SortByHits([x]) == [x]
  {
    assert [x][..0] == [];
  }

  lemma FooNames()
    ensures ContainsFolded("barfoo", "foo") && !StartsWith("barfoo", "foo")
    ensures ContainsFolded("foobar", "foo") && StartsWith("foobar", "foo")
  {
    assert OccursFoldedAt("barfoo", "foo", 3) by {
      assert "barfoo"[3..6] == "foo";
    }
    assert OccursFoldedAt("foobar", "foo", 0) by {
      assert "foobar"[0..3] == "foo";
    }
    assert "barfoo"[0] != 'f';
    assert "foobar"[..3] == "foo";
  }
}
