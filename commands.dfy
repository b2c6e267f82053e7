/**
 * The list logic of the editor commands (src/commands.ts): the recent-path
 * list kept in the settings, the last-used-path fallback and the items of the
 * JSONPath picker. Reading and writing the settings and showing the picker are
 * host calls; the stored values are plain inputs and outputs here.
 */
module Commands {
  import opened Wrappers
  import opened Sequences

  /** saveRecentPath keeps at most this many paths. */
  const MaxRecentPaths: nat := 10

  /** The `defaultJsonPath` setting's value when it is not configured. */
  const BuiltInDefaultPath: string := "$.response.candidates[0].content.parts[0].text"

  const CustomPathLabel: string := "$(edit) Enter custom path..."
  const CustomPathDescription: string := "Type a new JSONPath expression"
  const DefaultDescription: string := "Default"
  const RecentDescription: string := "Recent"

  /** The two settings saveRecentPath writes. */
  datatype StoredPaths = StoredPaths(recentPaths: seq<string>, lastUsedPath: string)

  /** getDefaultJsonPath: the configured default, or the built-in one. */
  function DefaultJsonPath(configured: Option<string>): (r: string)
    ensures configured.Some? ==> r == configured.value
    ensures configured.None? ==> r == BuiltInDefaultPath
  {
    match configured
    case Some(p) => p
    case None => BuiltInDefaultPath
  }

  /** getLastUsedPath: `lastUsed || default`, so an empty stored path falls back to the default. */
  function LastUsedPath(lastUsed: string, defaultPath: string): (r: string)
    ensures lastUsed != "" ==> r == lastUsed
    ensures lastUsed == "" ==> r == defaultPath
  {
    if lastUsed != "" then lastUsed else defaultPath
  }

  function Keep(path: string): string -> Option<string>
  {
    p => if p != path then Some(p) else None
  }

  /** `paths.filter(p => p !== path)`. */
  function Without(paths: seq<string>, path: string): seq<string>
  {
    FilterMap(paths, Keep(path))
  }

  function Min(a: int, b: int): int
  {
    if a <= b then a else b
  }

  /** The recent-path list after saving `path`: filtered, `path` put in front, cut to the maximum. */
  function RecentPathsAfterSave(recentPaths: seq<string>, path: string): seq<string>
  {
    var filtered := [path] + Without(recentPaths, path);
    filtered[..Min(|filtered|, MaxRecentPaths)]
  }

  /**
   * saveRecentPath: removes `path` from the stored list, puts it in front
   * (the in-place unshift on the filtered copy), keeps the first ten, and
   * stores `path` as the last used path as well.
   */
  method SaveRecentPath(stored: StoredPaths, path: string) returns (saved: StoredPaths)
    ensures saved == StoredPaths(RecentPathsAfterSave(stored.recentPaths, path), path)
  {
    var filtered := Without(stored.recentPaths, path);
    filtered := [path] + filtered;
    var trimmed := filtered[..Min(|filtered|, MaxRecentPaths)];
    saved := StoredPaths(trimmed, path);
  }

  /** The filter keeps, in order, exactly the entries other than `path`. */
  lemma WithoutPicks(paths: seq<string>, path: string) returns (idx: seq<int>)
    ensures var w := Without(paths, path);
      && |idx| == |w|
      && (forall k :: 0 <= k < |idx| ==> 0 <= idx[k] < |paths| && paths[idx[k]] == w[k] != path)
      && (forall k, l :: 0 <= k < l < |idx| ==> idx[k] < idx[l])
      && (forall i :: 0 <= i < |paths| ==> (i in idx <==> paths[i] != path))
  {
    idx := FilterMapPicks(paths, Keep(path));
    var w := Without(paths, path);
    forall i | 0 <= i < |paths| && i in idx
      ensures paths[i] != path
    {
      var k :| 0 <= k < |idx| && idx[k] == i;
    }
  }

  /** The filter leaves no copy of `path`, and drops nothing else. */
  lemma WithoutMembers(paths: seq<string>, path: string)
    ensures path !in Without(paths, path)
    ensures forall p :: p in Without(paths, path) <==> p in paths && p != path
  {
    var idx := WithoutPicks(paths, path);
    var w := Without(paths, path);
    forall p | p in paths && p != path
      ensures p in w
    {
      var i :| 0 <= i < |paths| && paths[i] == p;
      var k :| 0 <= k < |idx| && idx[k] == i;
    }
  }

  /** Filtering out a path that is not there changes nothing. */
  lemma {:induction false} WithoutAbsent(paths: seq<string>, path: string)
    requires path !in paths
    ensures Without(paths, path) == paths
  {
    if paths != [] {
      var n := |paths| - 1;
      assert paths[n] in paths;
      assert forall p :: p in paths[..n] ==> p in paths;
      WithoutAbsent(paths[..n], path);
      assert paths == paths[..n] + [paths[n]];
    }
  }

  /**
   * After saving, the list holds at most ten paths, `path` first and nowhere
   * else, followed by the earlier entries other than `path`, in their order,
   * cut to nine.
   */
  lemma RecentPathsAfterSaveShape(recentPaths: seq<string>, path: string)
    ensures var r := RecentPathsAfterSave(recentPaths, path);
      var w := Without(recentPaths, path);
      && 1 <= |r| <= MaxRecentPaths
      && |r| == Min(|w| + 1, MaxRecentPaths)
      && r[0] == path
      && (forall i :: 1 <= i < |r| ==> r[i] != path)
      && r[1..] == w[..|r| - 1]
  {
    var r := RecentPathsAfterSave(recentPaths, path);
    var w := Without(recentPaths, path);
    WithoutMembers(recentPaths, path);
    forall i | 1 <= i < |r|
      ensures r[i] != path
    {
      assert r[i] == w[i - 1];
    }
  }

  /** Saving the same path a second time changes nothing. */
  lemma SaveRecentPathIdempotent(recentPaths: seq<string>, path: string)
    ensures var once := RecentPathsAfterSave(recentPaths, path);
      RecentPathsAfterSave(once, path) == once
  {
    var once := RecentPathsAfterSave(recentPaths, path);
    RecentPathsAfterSaveShape(recentPaths, path);
    var rest := once[1..];
    assert path !in rest by {
      forall i | 0 <= i < |rest|
        ensures rest[i] != path
      {
        assert rest[i] == once[i + 1];
      }
    }
    assert once == [path] + rest;
    WithoutDropsFront(rest, path);
    var filtered := [path] + Without(once, path);
    assert filtered == once;
    assert filtered[..Min(|filtered|, MaxRecentPaths)] == once;
  }

  /** Filtering `path` out of `[path] ++ rest`, where `rest` lacks it, leaves `rest`. */
  lemma WithoutDropsFront(rest: seq<string>, path: string)
    requires path !in rest
    ensures Without([path] + rest, path) == rest
  {
    FilterMapAppend([path], rest, Keep(path));
    FilterMapSnoc([], path, Keep(path));
    assert [] + [path] == [path];
    WithoutAbsent(rest, path);
  }

  predicate NoDuplicates(paths: seq<string>)
  {
    forall i, j :: 0 <= i < j < |paths| ==> paths[i] != paths[j]
  }

  /** A list without repeated paths stays so after a save. */
  lemma SaveRecentPathKeepsNoDuplicates(recentPaths: seq<string>, path: string)
    requires NoDuplicates(recentPaths)
    ensures NoDuplicates(RecentPathsAfterSave(recentPaths, path))
  {
    var r := RecentPathsAfterSave(recentPaths, path);
    var w := Without(recentPaths, path);
    var idx := WithoutPicks(recentPaths, path);
    RecentPathsAfterSaveShape(recentPaths, path);
    forall i, j | 0 <= i < j < |r|
      ensures r[i] != r[j]
    {
      if i > 0 {
        assert r[i] == w[i - 1] == recentPaths[idx[i - 1]];
        assert r[j] == w[j - 1] == recentPaths[idx[j - 1]];
      }
    }
  }

  /** Saving a path makes it the last used path, unless it is empty. */
  lemma SavedPathIsLastUsed(stored: StoredPaths, path: string, defaultPath: string)
    ensures var saved := StoredPaths(RecentPathsAfterSave(stored.recentPaths, path), path);
      LastUsedPath(saved.lastUsedPath, defaultPath) == if path != "" then path else defaultPath
  {
  }

  /** An entry of the JSONPath picker; `caption` is its label (`label` is a Dafny keyword). */
  datatype QuickPickItem = QuickPickItem(caption: string, description: string, picked: bool)

  function RecentItem(p: string): QuickPickItem
  {
    QuickPickItem(p, RecentDescription, false)
  }

  /**
   * The picker's items when there are recent paths: the custom-entry item,
   * the default path (preselected), then every recent path other than the
   * default, in order. No recent paths: no picker, the input box instead.
   */
  function QuickPickItems(defaultPath: string, recentPaths: seq<string>): (r: Option<seq<QuickPickItem>>)
    ensures r.Some? <==> |recentPaths| > 0
    ensures r.Some? ==> |r.value| == 2 + |Without(recentPaths, defaultPath)| && |r.value| <= 2 + |recentPaths|
    ensures r.Some? ==> r.value[0] == QuickPickItem(CustomPathLabel, CustomPathDescription, false)
    ensures r.Some? ==> r.value[1] == QuickPickItem(defaultPath, DefaultDescription, true)
  {
    if |recentPaths| > 0 then
      Some([QuickPickItem(CustomPathLabel, CustomPathDescription, false),
            QuickPickItem(defaultPath, DefaultDescription, true)]
           + Map(Without(recentPaths, defaultPath), RecentItem))
    else None
  }

  /** The picker's layout, with the default path listed once and the only item preselected. */
  lemma QuickPickItemsOrder(defaultPath: string, recentPaths: seq<string>)
    ensures QuickPickItems(defaultPath, recentPaths).Some? <==> recentPaths != []
    ensures recentPaths != [] ==>
      var items := QuickPickItems(defaultPath, recentPaths).value;
      var others := Without(recentPaths, defaultPath);
      && |items| == 2 + |others|
      && items[0].caption == CustomPathLabel
      && items[1] == QuickPickItem(defaultPath, DefaultDescription, true)
      && (forall k :: 0 <= k < |others| ==> items[k + 2] == QuickPickItem(others[k], RecentDescription, false))
      && (forall i :: 1 <= i < |items| ==> (items[i].caption == defaultPath <==> i == 1))
      && (forall i :: 0 <= i < |items| ==> (items[i].picked <==> i == 1))
  {
    if recentPaths != [] {
      var items := QuickPickItems(defaultPath, recentPaths).value;
      var others := Without(recentPaths, defaultPath);
      WithoutMembers(recentPaths, defaultPath);
      forall i | 2 <= i < |items|
        ensures items[i].caption != defaultPath
      {
        assert items[i].caption == others[i - 2];
        assert others[i - 2] in others;
      }
    }
  }

  /** What the picker leads to: cancelled, the input box, or the chosen path. */
  datatype Selection = Cancelled | EnterCustomPath | Chosen(path: string)

  /** promptForJsonPath after the picker closes: nothing, the custom entry, or an item's label (its caption). */
  function Selected(selected: Option<QuickPickItem>): (r: Selection)
    ensures r == Cancelled <==> selected.None?
    ensures r == EnterCustomPath <==> selected.Some? && selected.value.caption == CustomPathLabel
    ensures r.Chosen? ==> selected.Some? && r.path == selected.value.caption && r.path != CustomPathLabel
  {
    match selected
    case None => Cancelled
    case Some(item) => if item.caption == CustomPathLabel then EnterCustomPath else Chosen(item.caption)
  }

  /** Picking the default or a recent path yields that path, unless it reads like the custom entry. */
  lemma PickingAnItemYieldsItsPath(defaultPath: string, recentPaths: seq<string>, i: int)
    requires QuickPickItems(defaultPath, recentPaths).Some?
    requires 1 <= i < |QuickPickItems(defaultPath, recentPaths).value|
    ensures var item := QuickPickItems(defaultPath, recentPaths).value[i];
      && (item.caption == defaultPath || item.caption in recentPaths)
      && (item.caption != CustomPathLabel ==> Selected(Some(item)) == Chosen(item.caption))
  {
    var items := QuickPickItems(defaultPath, recentPaths).value;
    var others := Without(recentPaths, defaultPath);
    WithoutMembers(recentPaths, defaultPath);
    if i >= 2 {
      assert items[i].caption == others[i - 2];
      assert others[i - 2] in others;
    }
  }
}
