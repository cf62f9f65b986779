/**
 * The stored configuration: the editor map kept beside the cache, and the
 * merge that carries click counts and chosen editors from the stored cache
 * into a freshly scanned project list.
 */
module Cache {
  import opened Types

  /** The labels of the projects in `cache`. */
  function TypesOf(cache: seq<Project>): set<string>
  {
    set p | p in cache :: p.projectType
  }

  /**
   * `combinedEditorList`: the stored editor map, plus an empty editor for
   * every project type that has none yet.
   */
  function CombinedEditors(editor: map<string, string>, cache: seq<Project>): (r: map<string, string>)
    ensures r.Keys == editor.Keys + TypesOf(cache)
    ensures forall k :: k in editor ==> r[k] == editor[k]
    ensures forall k :: k in r && k !in editor ==> r[k] == ""
  {
    map k | k in editor.Keys + TypesOf(cache) :: if k in editor then editor[k] else ""
  }

  /** `combinedEditorList`, with its loop over the cache. */
  method CombinedEditorList(editor: map<string, string>, cache: seq<Project>) returns (newEditor: map<string, string>)
    ensures newEditor == CombinedEditors(editor, cache)
  {
    newEditor := editor;
    var currentEditor := editor.Keys;
    for i := 0 to |cache|
      invariant newEditor.Keys == editor.Keys + TypesOf(cache[..i])
      invariant forall k :: k in editor ==> newEditor[k] == editor[k]
      invariant forall k :: k in newEditor && k !in editor ==> newEditor[k] == ""
    {
      var t := cache[i].projectType;
      if t !in currentEditor {
        newEditor := newEditor[t := ""];
      }
      assert cache[..i + 1] == cache[..i] + [cache[i]];
    }
    assert cache[..|cache|] == cache;
  }

  /** Merging the editors of two scans one after the other is merging their union. */
  lemma CombinedEditorsAppend(editor: map<string, string>, c1: seq<Project>, c2: seq<Project>)
    ensures CombinedEditors(CombinedEditors(editor, c1), c2) == CombinedEditors(editor, c1 + c2)
  {
    assert TypesOf(c1 + c2) == TypesOf(c1) + TypesOf(c2);
  }

  /** Merging the same scan again changes nothing. */
  lemma CombinedEditorsIdempotent(editor: map<string, string>, cache: seq<Project>)
    ensures CombinedEditors(CombinedEditors(editor, cache), cache) == CombinedEditors(editor, cache)
  {
  }

  /**
   * `writeCache`: the configuration written for `newCache` when `stored` is
   * what the configuration file held.
   */
  method WriteCache(stored: Config, newCache: seq<Project>) returns (written: Config)
    ensures written.cache == newCache
    ensures written.editor == CombinedEditors(stored.editor, newCache)
    ensures forall p :: p in newCache ==> p.projectType in written.editor
  {
    var newEditorList := CombinedEditorList(stored.editor, newCache);
    written := Config(newEditorList, newCache);
  }

  /** A stored entry worth carrying over: it has been opened, or has an editor chosen. */
  predicate Signal(p: Project)
  {
    p.hits > 0 || p.idePath != ""
  }

  /** `needMergeList`: the signalling stored entries by path, a later entry replacing an earlier one. */
  function SignalMap(cache: seq<Project>): map<string, Project>
  {
    if cache == [] then map[]
    else
      var m := SignalMap(cache[..|cache| - 1]);
      var item := cache[|cache| - 1];
      if Signal(item) then m[item.path := item] else m
  }

  /** Entry `i` signals and no later signalling entry has its path. */
  ghost predicate LastSignal(cache: seq<Project>, i: int)
  {
    0 <= i < |cache| && Signal(cache[i]) &&
    forall j :: i < j < |cache| && Signal(cache[j]) ==> cache[j].path != cache[i].path
  }

  /** The map holds exactly the paths of signalling entries, each bound to its last signalling entry. */
  lemma SignalMapSpec(cache: seq<Project>)
    ensures forall k :: k in SignalMap(cache) <==> exists i :: 0 <= i < |cache| && Signal(cache[i]) && cache[i].path == k
    ensures forall i :: LastSignal(cache, i) ==> SignalMap(cache)[cache[i].path] == cache[i]
  {
    SignalMapKeys(cache);
    SignalMapLast(cache);
  }

  lemma {:induction false} SignalMapKeys(cache: seq<Project>)
    ensures forall k :: k in SignalMap(cache) <==> exists i :: 0 <= i < |cache| && Signal(cache[i]) && cache[i].path == k
  {
    if cache != [] {
      var n := |cache| - 1;
      var init := cache[..n];
      SignalMapKeys(init);
      forall k ensures k in SignalMap(cache) <==> exists i :: 0 <= i < |cache| && Signal(cache[i]) && cache[i].path == k {
        if exists i :: 0 <= i < |cache| && Signal(cache[i]) && cache[i].path == k {
          var i :| 0 <= i < |cache| && Signal(cache[i]) && cache[i].path == k;
          if i < n {
            assert init[i] == cache[i];
          }
        }
        if k in SignalMap(init) {
          var i :| 0 <= i < |init| && Signal(init[i]) && init[i].path == k;
          assert cache[i] == init[i];
        }
      }
    }
  }

  lemma {:induction false} SignalMapLast(cache: seq<Project>)
    ensures forall i :: LastSignal(cache, i) ==> cache[i].path in SignalMap(cache) && SignalMap(cache)[cache[i].path] == cache[i]
  {
    if cache != [] {
      var n := |cache| - 1;
      var init := cache[..n];
      SignalMapLast(init);
      SignalMapKeys(init);
      forall i | LastSignal(cache, i) ensures cache[i].path in SignalMap(cache) && SignalMap(cache)[cache[i].path] == cache[i] {
        if i < n {
          assert init[i] == cache[i];
          assert LastSignal(init, i);
        }
      }
    }
  }

  /** The signalling entries all come from the stored cache. */
  lemma SignalMapFrom(cache: seq<Project>)
    ensures forall k :: k in SignalMap(cache) ==>
      SignalMap(cache)[k] in cache && Signal(SignalMap(cache)[k]) && SignalMap(cache)[k].path == k
  {
    SignalMapSpec(cache);
    forall k | k in SignalMap(cache)
      ensures SignalMap(cache)[k] in cache && Signal(SignalMap(cache)[k]) && SignalMap(cache)[k].path == k
    {
      var i :| 0 <= i < |cache| && Signal(cache[i]) && cache[i].path == k;
      var j := LastFrom(cache, i);
      assert LastSignal(cache, j);
    }
  }

  /** The last signalling entry with the same path as the signalling entry `i`. */
  ghost function LastFrom(cache: seq<Project>, i: int): (j: int)
    requires 0 <= i < |cache| && Signal(cache[i])
    ensures i <= j < |cache| && LastSignal(cache, j) && cache[j].path == cache[i].path
    decreases |cache| - i
  {
    if exists j :: i < j < |cache| && Signal(cache[j]) && cache[j].path == cache[i].path then
      var j :| i < j < |cache| && Signal(cache[j]) && cache[j].path == cache[i].path;
      LastFrom(cache, j)
    else i
  }

  /** One item of the new list after the merge: the larger hit count and the stored editor. */
  function MergeOne(m: map<string, Project>, item: Project): (r: Project)
    ensures r.id == item.id && r.name == item.name && r.path == item.path && r.projectType == item.projectType
  {
    var hits := if item.path in m then m[item.path].hits else 0;
    var idePath := if item.path in m then m[item.path].idePath else "";
    item.(hits := if item.hits > hits then item.hits else hits, idePath := idePath)
  }

  /** `combinedCache`: the new list, each item merged with the stored entry for its path. */
  function Merged(cache: seq<Project>, newCache: seq<Project>): (r: seq<Project>)
    ensures |r| == |newCache|
  {
    var m := SignalMap(cache);
    seq(|newCache|, i requires 0 <= i < |newCache| => MergeOne(m, newCache[i]))
  }

  /** `combinedCache`, updating the scanned records in place. */
  method CombinedCache(cache: seq<Project>, newCache: array<Project>)
    modifies newCache
    ensures newCache[..] == Merged(cache, old(newCache[..]))
  {
    var needMergeList: map<string, Project> := map[];
    for i := 0 to |cache|
      invariant needMergeList == SignalMap(cache[..i])
    {
      var item := cache[i];
      assert cache[..i + 1][..i] == cache[..i];
      if item.hits > 0 || item.idePath != "" {
        needMergeList := needMergeList[item.path := item];
      }
    }
    assert cache[..|cache|] == cache;
    ghost var before := newCache[..];
    for i := 0 to newCache.Length
      invariant forall j :: 0 <= j < i ==> newCache[j] == MergeOne(needMergeList, before[j])
      invariant forall j :: i <= j < newCache.Length ==> newCache[j] == before[j]
    {
      var item := newCache[i];
      var hits := 0;
      var idePath := "";
      if item.path in needMergeList {
        hits := needMergeList[item.path].hits;
        idePath := needMergeList[item.path].idePath;
      }
      newCache[i] := item.(hits := if item.hits > hits then item.hits else hits, idePath := idePath);
    }
  }

  /**
   * Each merged item keeps its identity, takes the larger of its own hit
   * count and that of the last signalling stored entry for its path, and
   * that entry's editor; with no such entry it keeps its count and has no
   * editor.
   */
  lemma MergedItem(cache: seq<Project>, newCache: seq<Project>, i: int, j: int)
    requires 0 <= i < |newCache| && LastSignal(cache, j) && cache[j].path == newCache[i].path
    ensures Merged(cache, newCache)[i].hits == if newCache[i].hits > cache[j].hits then newCache[i].hits else cache[j].hits
    ensures Merged(cache, newCache)[i].idePath == cache[j].idePath
  {
    SignalMapSpec(cache);
  }

  lemma MergedUnmatched(cache: seq<Project>, newCache: seq<Project>, i: int)
    requires 0 <= i < |newCache|
    requires forall j :: 0 <= j < |cache| && Signal(cache[j]) ==> cache[j].path != newCache[i].path
    ensures Merged(cache, newCache)[i] == newCache[i].(idePath := "")
  {
    SignalMapSpec(cache);
  }

  /** No click count is lost: a merged item has at least its own hits and those of its stored entry. */
  lemma MergedHitsKept(cache: seq<Project>, newCache: seq<Project>, i: int, j: int)
    requires 0 <= i < |newCache| && 0 <= j < |cache| && cache[j].path == newCache[i].path
    requires forall k :: 0 <= k < |cache| && cache[k].path == cache[j].path ==> k == j
    ensures Merged(cache, newCache)[i].hits >= newCache[i].hits
    ensures Merged(cache, newCache)[i].hits >= cache[j].hits
    ensures Merged(cache, newCache)[i].idePath == cache[j].idePath
  {
    if Signal(cache[j]) {
      MergedItem(cache, newCache, i, j);
    } else {
      MergedUnmatched(cache, newCache, i);
    }
  }

  /** The merge never lowers a scanned count, whatever the stored cache holds. */
  lemma MergedHitsAtLeastScanned(cache: seq<Project>, newCache: seq<Project>, i: int)
    requires 0 <= i < |newCache|
    ensures Merged(cache, newCache)[i].hits >= newCache[i].hits
  {
  }

  /** Merging twice against the same stored cache is merging once. */
  lemma MergedIdempotent(cache: seq<Project>, newCache: seq<Project>)
    ensures Merged(cache, Merged(cache, newCache)) == Merged(cache, newCache)
  {
  }

  /** A record as the walk produces it: never opened, no editor. */
  predicate Fresh(p: Project)
  {
    p.hits == 0 && p.idePath == ""
  }

  predicate UniquePaths(ps: seq<Project>)
  {
    forall i, j :: 0 <= i < j < |ps| ==> ps[i].path != ps[j].path
  }

  /**
   * Storing a merged scan and merging the same fresh scan against it again
   * gives the stored list back: counts and editors survive a rescan.
   */
  lemma RescanStable(cache: seq<Project>, scan: seq<Project>)
    requires forall p :: p in scan ==> Fresh(p)
    requires UniquePaths(scan)
    ensures Merged(Merged(cache, scan), scan) == Merged(cache, scan)
  {
    var stored := Merged(cache, scan);
    var m := SignalMap(cache);
    SignalMapFrom(cache);
    SignalMapSpec(stored);
    forall i | 0 <= i < |scan| ensures Merged(stored, scan)[i] == stored[i] {
      assert scan[i] in scan;
      if scan[i].path in m {
        assert Signal(stored[i]);
        assert LastSignal(stored, i);
      } else {
        forall j | 0 <= j < |stored| && Signal(stored[j]) ensures stored[j].path != scan[i].path {
          if j != i {
            assert stored[j].path == scan[j].path;
          }
        }
      }
    }
  }

  /** A project opened five times keeps its count when a rescan finds it again. */
  lemma ClickCountSurvivesScenario()
    ensures Merged([Project("h", "blog", "/w/blog", "hexo", 5, "")],
                   [Project("h", "blog", "/w/blog", "hexo", 0, "")])
            == [Project("h", "blog", "/w/blog", "hexo", 5, "")]
  {
    var cache := [Project("h", "blog", "/w/blog", "hexo", 5, "")];
    assert SignalMap(cache) == map["/w/blog" := cache[0]] by {
      assert cache[..0] == [];
    }
  }
}
