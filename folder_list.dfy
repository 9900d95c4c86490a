/** The flattened folder list of the folder pane (helpers of `src/input.rs`): the
    count of visible folders, the depth-first list over sorted children, and the
    way back from a position in that list to a path of raw child indices. The Rust
    list holds references and finds a folder again by its address; here each
    entry carries the raw-index path that identifies it. */
module FolderList {
  import opened Wrappers
  import opened Mail
  import Store

  /** One row of the flattened list: the folder, its depth (1 for a child of the
      root) and the raw child indices leading to it. */
  datatype FlatEntry = FlatEntry(folder: Folder, depth: nat, path: seq<nat>)

  // ----- count_visible_folders -----

  /** The number of folders below `f`, `f` itself not included. */
  function CountVisible(f: Folder): nat
    decreases f, 1
  {
    CountIn(f.subfolders)
  }

  /** The folders in the trees `s`, their roots included. */
  function CountIn(s: seq<Folder>): nat
    decreases s, 0
  {
    if s == [] then 0 else CountIn(s[..|s| - 1]) + 1 + CountVisible(s[|s| - 1])
  }

  /** `count_visible_folders` (and `count_visible_folders_recursive`, which has the
      same body). */
  method CountVisibleFolders(f: Folder) returns (count: nat)
    decreases f
    ensures count == CountVisible(f)
  {
    count := 0;
    var i := 0;
    while i < |f.subfolders|
      invariant 0 <= i <= |f.subfolders|
      invariant count == CountIn(f.subfolders[..i])
    {
      assert f.subfolders[..i + 1][..i] == f.subfolders[..i];
      var below := CountVisibleFolders(f.subfolders[i]);
      count := count + 1 + below;
      i := i + 1;
    }
    assert f.subfolders[..i] == f.subfolders;
  }

  /** Changing one tree of `s` for one with as many folders keeps the count. */
  lemma {:induction false} CountInUpdate(s: seq<Folder>, i: nat, x: Folder)
    requires i < |s| && CountVisible(x) == CountVisible(s[i])
    ensures CountIn(s[i := x]) == CountIn(s)
    decreases |s|
  {
    if i < |s| - 1 {
      assert s[i := x][..|s| - 1] == s[..|s| - 1][i := x];
      CountInUpdate(s[..|s| - 1], i, x);
    } else {
      assert s[i := x][..|s| - 1] == s[..|s| - 1];
    }
  }

  /** Replacing the folder a walk reaches by one with the same subfolders, which is
      what a load or a message update does, keeps the number of visible folders. */
  lemma {:induction false} ReplaceAtKeepsCount(f: Folder, path: seq<nat>, g: Folder)
    requires g.subfolders == Store.Walk(f, path).subfolders
    ensures CountVisible(Store.ReplaceAt(f, path, g)) == CountVisible(f)
    decreases |path|
  {
    if path != [] {
      if path[0] < |f.subfolders| {
        ReplaceAtKeepsCount(f.subfolders[path[0]], path[1..], g);
        CountInUpdate(f.subfolders, path[0], Store.ReplaceAt(f.subfolders[path[0]], path[1..], g));
      } else {
        ReplaceAtKeepsCount(f, path[1..], g);
      }
    }
  }

  // ----- build_flat_folder_list -----

  /** The rows for `f` at `depth` (none for the root, at depth 0) and its
      descendants, children in sorted order. */
  function FlatFrom(f: Folder, depth: nat, path: seq<nat>): seq<FlatEntry>
    decreases f, 1
  {
    (if depth > 0 then [FlatEntry(f, depth, path)] else [])
    + FlatChildren(f, depth, path, SortedOrder(f))
  }

  /** The rows of the children of `f` at the raw positions `order`, in that order. */
  function FlatChildren(f: Folder, depth: nat, path: seq<nat>, order: seq<nat>): seq<FlatEntry>
    requires IndicesBelow(order, |f.subfolders|)
    decreases f, 0, |order|
  {
    if order == [] then []
    else FlatFrom(f.subfolders[order[0]], depth + 1, path + [order[0]])
         + FlatChildren(f, depth, path, order[1..])
  }

  /** The list the folder pane shows: every folder below the root. */
  function FlatList(root: Folder): seq<FlatEntry> {
    FlatFrom(root, 0, [])
  }

  /** `build_flat_folder_list` */
  method BuildFlatFolderList(f: Folder, depth: nat, path: seq<nat>) returns (result: seq<FlatEntry>)
    decreases f
    ensures result == FlatFrom(f, depth, path)
  {
    result := [];
    if depth > 0 {
      result := [FlatEntry(f, depth, path)];
    }
    var order := SortedOrder(f);
    var i := 0;
    while i < |order|
      invariant 0 <= i <= |order|
      invariant result + FlatChildren(f, depth, path, order[i..]) == FlatFrom(f, depth, path)
    {
      assert order[i..][0] == order[i] && order[i..][1..] == order[i + 1..];
      var rows := BuildFlatFolderList(f.subfolders[order[i]], depth + 1, path + [order[i]]);
      result := result + rows;
      i := i + 1;
    }
  }

  /** The weight of the children at positions `s`: each one, with all below it. */
  function SumOver(subs: seq<Folder>, s: seq<nat>): nat
    requires IndicesBelow(s, |subs|)
  {
    if s == [] then 0 else 1 + CountVisible(subs[s[0]]) + SumOver(subs, s[1..])
  }

  lemma {:induction false} SumOverInsert(subs: seq<Folder>, k: nat, s: seq<nat>)
    requires k < |subs| && IndicesBelow(s, |subs|)
    ensures SumOver(subs, Insert(subs, k, s)) == SumOver(subs, s) + 1 + CountVisible(subs[k])
  {
    if s != [] && NameLe(subs[s[0]].name, subs[k].name) {
      SumOverInsert(subs, k, s[1..]);
    }
  }

  /** The weight does not depend on the order. */
  lemma {:induction false} SumOverSortPrefix(subs: seq<Folder>, n: nat)
    requires n <= |subs|
    ensures SumOver(subs, SortPrefix(subs, n)) == CountIn(subs[..n])
  {
    if n > 0 {
      var prev := SortPrefix(subs, n - 1);
      assert SortPrefix(subs, n) == Insert(subs, n - 1, prev);
      SumOverSortPrefix(subs, n - 1);
      SumOverInsert(subs, n - 1, prev);
      CountInTake(subs, n);
    }
  }

  lemma CountInTake(subs: seq<Folder>, n: nat)
    requires 0 < n <= |subs|
    ensures CountIn(subs[..n]) == CountIn(subs[..n - 1]) + 1 + CountVisible(subs[n - 1])
  {
    var t := subs[..n];
    assert t[..|t| - 1] == subs[..n - 1];
  }

  lemma SumOverSorted(f: Folder)
    ensures SumOver(f.subfolders, SortedOrder(f)) == CountVisible(f)
  {
    SumOverSortPrefix(f.subfolders, |f.subfolders|);
    assert f.subfolders[..|f.subfolders|] == f.subfolders;
  }

  lemma {:induction false} FlatFromLength(f: Folder, depth: nat, path: seq<nat>)
    ensures |FlatFrom(f, depth, path)| == (if depth > 0 then 1 else 0) + CountVisible(f)
    decreases f, 1
  {
    FlatChildrenLength(f, depth, path, SortedOrder(f));
    SumOverSorted(f);
  }

  lemma {:induction false} FlatChildrenLength(f: Folder, depth: nat, path: seq<nat>, order: seq<nat>)
    requires IndicesBelow(order, |f.subfolders|)
    ensures |FlatChildren(f, depth, path, order)| == SumOver(f.subfolders, order)
    decreases f, 0, |order|
  {
    if order != [] {
      FlatFromLength(f.subfolders[order[0]], depth + 1, path + [order[0]]);
      FlatChildrenLength(f, depth, path, order[1..]);
    }
  }

  /** The list has one row per folder below the root. */
  lemma FlatListLength(root: Folder)
    ensures |FlatList(root)| == CountVisible(root)
  {
    FlatFromLength(root, 0, []);
  }

  /** Row `e` of the list for `g`, built at `depth` from `path`, lies below `g`: its
      path extends `path`, its depth grows with the path, and the rest of its path
      leads from `g` to its folder. Only `g`'s own row has `path` itself. */
  predicate EntryBelow(g: Folder, depth: nat, path: seq<nat>, e: FlatEntry) {
    |path| <= |e.path| && e.path[..|path|] == path
    && e.depth == depth + |e.path| - |path|
    && (depth > 0 || |e.path| > |path|)
    && Store.FolderAtPath(g, e.path[|path|..]) == Some(e.folder)
  }

  lemma {:induction false} FlatFromBelow(g: Folder, depth: nat, path: seq<nat>)
    ensures forall i :: 0 <= i < |FlatFrom(g, depth, path)| ==> EntryBelow(g, depth, path, FlatFrom(g, depth, path)[i])
    decreases g, 1
  {
    var head := if depth > 0 then [FlatEntry(g, depth, path)] else [];
    var rest := FlatChildren(g, depth, path, SortedOrder(g));
    FlatChildrenBelow(g, depth, path, SortedOrder(g));
    assert path[|path|..] == [];
    assert FlatFrom(g, depth, path) == head + rest;
  }

  lemma {:induction false} FlatChildrenBelow(g: Folder, depth: nat, path: seq<nat>, order: seq<nat>)
    requires IndicesBelow(order, |g.subfolders|)
    ensures forall i :: 0 <= i < |FlatChildren(g, depth, path, order)| ==>
              EntryBelow(g, depth, path, FlatChildren(g, depth, path, order)[i])
    decreases g, 0, |order|
  {
    if order != [] {
      var k := order[0];
      var sub := g.subfolders[k];
      var first := FlatFrom(sub, depth + 1, path + [k]);
      FlatFromBelow(sub, depth + 1, path + [k]);
      FlatChildrenBelow(g, depth, path, order[1..]);
      forall i | 0 <= i < |first|
        ensures EntryBelow(g, depth, path, first[i])
      {
        var e := first[i];
        assert EntryBelow(sub, depth + 1, path + [k], e);
        assert e.path[..|path|] == (path + [k])[..|path|] == path;
        assert e.path[|path|..] == [k] + e.path[|path| + 1..] by {
          assert e.path[|path|] == (path + [k])[|path|] == k;
        }
      }
    }
  }

  /** Every row is at depth at least 1, its depth is the length of its path, and its
      path leads from the root to its folder. */
  lemma FlatListEntries(root: Folder, i: nat)
    requires i < |FlatList(root)|
    ensures FlatList(root)[i].depth >= 1
    ensures FlatList(root)[i].depth == |FlatList(root)[i].path|
    ensures Store.FolderAtPath(root, FlatList(root)[i].path) == Some(FlatList(root)[i].folder)
  {
    FlatFromBelow(root, 0, []);
    assert EntryBelow(root, 0, [], FlatList(root)[i]);
    assert FlatList(root)[i].path[0..] == FlatList(root)[i].path;
  }

  /** Row number `SumOver(order[..k])` of the children's rows is the row of the
      child at position `order[k]`. */
  lemma {:induction false} FlatChildrenAt(f: Folder, depth: nat, path: seq<nat>, order: seq<nat>, k: nat)
    requires IndicesBelow(order, |f.subfolders|) && k < |order|
    ensures SumOver(f.subfolders, order[..k]) < |FlatChildren(f, depth, path, order)|
    ensures FlatChildren(f, depth, path, order)[SumOver(f.subfolders, order[..k])]
         == FlatEntry(f.subfolders[order[k]], depth + 1, path + [order[k]])
    decreases k
  {
    var first := FlatFrom(f.subfolders[order[0]], depth + 1, path + [order[0]]);
    FlatFromLength(f.subfolders[order[0]], depth + 1, path + [order[0]]);
    FlatChildrenLength(f, depth, path, order[1..]);
    if k == 0 {
      assert order[..0] == [];
    } else {
      FlatChildrenAt(f, depth, path, order[1..], k - 1);
      assert order[..k][0] == order[0] && order[..k][1..] == order[1..][..k - 1];
      assert order[1..][k - 1] == order[k];
    }
  }

  // ----- find_folder_path and get_folder_path_from_display_index -----

  /** `find_folder_path`: a depth-first search over the raw (unsorted) children for
      the folder identified by `target`; `curPath` identifies `cur`. The result is
      the path from `cur` to it. */
  function FindFolderPath(cur: Folder, curPath: seq<nat>, target: seq<nat>): Option<seq<nat>>
    decreases cur, 1
  {
    if curPath == target then Some([]) else FindIn(cur, curPath, target, 0)
  }

  function FindIn(cur: Folder, curPath: seq<nat>, target: seq<nat>, i: nat): Option<seq<nat>>
    decreases cur, 0, |cur.subfolders| - i
  {
    if i >= |cur.subfolders| then None
    else
      match FindFolderPath(cur.subfolders[i], curPath + [i], target)
      case Some(p) => Some([i] + p)
      case None => FindIn(cur, curPath, target, i + 1)
  }

  /** What the search finds is the rest of the target's path. */
  lemma {:induction false} FindSound(cur: Folder, curPath: seq<nat>, target: seq<nat>)
    ensures FindFolderPath(cur, curPath, target).Some? ==> target == curPath + FindFolderPath(cur, curPath, target).value
    decreases cur, 1
  {
    if curPath != target {
      FindInSound(cur, curPath, target, 0);
    }
  }

  lemma {:induction false} FindInSound(cur: Folder, curPath: seq<nat>, target: seq<nat>, i: nat)
    ensures FindIn(cur, curPath, target, i).Some? ==> target == curPath + FindIn(cur, curPath, target, i).value
    decreases cur, 0, |cur.subfolders| - i
  {
    if i < |cur.subfolders| {
      FindSound(cur.subfolders[i], curPath + [i], target);
      match FindFolderPath(cur.subfolders[i], curPath + [i], target)
      case Some(p) =>
        assert curPath + [i] + p == curPath + ([i] + p);
      case None =>
        FindInSound(cur, curPath, target, i + 1);
    }
  }

  /** A path valid from `cur` is found, and found as itself. */
  lemma {:induction false} FindComplete(cur: Folder, curPath: seq<nat>, rest: seq<nat>)
    requires Store.FolderAtPath(cur, rest).Some?
    ensures FindFolderPath(cur, curPath, curPath + rest) == Some(rest)
    decreases cur, 1
  {
    if rest == [] {
      assert curPath + rest == curPath;
    } else {
      assert |curPath + rest| > |curPath|;
      FindInReaches(cur, curPath, rest, 0);
    }
  }

  lemma {:induction false} FindInReaches(cur: Folder, curPath: seq<nat>, rest: seq<nat>, i: nat)
    requires rest != [] && Store.FolderAtPath(cur, rest).Some? && i <= rest[0]
    ensures FindIn(cur, curPath, curPath + rest, i) == Some(rest)
    decreases cur, 0, rest[0] - i
  {
    var target := curPath + rest;
    if i < rest[0] {
      FindSound(cur.subfolders[i], curPath + [i], target);
      assert target[|curPath|] == rest[0] != i;
      FindInReaches(cur, curPath, rest, i + 1);
    } else {
      assert target == (curPath + [i]) + rest[1..] by {
        assert rest == [i] + rest[1..];
      }
      FindComplete(cur.subfolders[i], curPath + [i], rest[1..]);
      assert [i] + rest[1..] == rest;
    }
  }

  /** `get_folder_path_from_display_index` */
  function GetFolderPathFromDisplayIndex(root: Folder, displayIndex: nat): Option<seq<nat>> {
    var flat := FlatList(root);
    if displayIndex < |flat| then FindFolderPath(root, [], flat[displayIndex].path) else None
  }

  /** A display index resolves exactly when it is a row of the list, and then to the
      path that reaches that row's folder. */
  lemma DisplayIndexResolves(root: Folder, i: nat)
    ensures GetFolderPathFromDisplayIndex(root, i).Some? <==> i < CountVisible(root)
    ensures i < CountVisible(root) ==>
              GetFolderPathFromDisplayIndex(root, i) == Some(FlatList(root)[i].path)
              && Store.FolderAtPath(root, FlatList(root)[i].path) == Some(FlatList(root)[i].folder)
  {
    FlatListLength(root);
    if i < CountVisible(root) {
      FlatListEntries(root, i);
      FindComplete(root, [], FlatList(root)[i].path);
      assert [] + FlatList(root)[i].path == FlatList(root)[i].path;
    }
  }
}
