/**
 The root_folder_id back-fill of backend/app/database.py: a WITH RECURSIVE query that pairs every folder with
 the root of its tree, and one UPDATE that fills the pointers still NULL.

 The query is evaluated as PostgreSQL documents it (section 7.8.2 of its manual): the working table is joined
 with folders until it is empty, and with UNION ALL every row produced is kept.
 */
module RootBackfill {
  import opened Options

  type Id = string
  datatype Folder = Folder(parent: Option<Id>, root: Option<Id>)
  type Folders = map<Id, Folder>
  datatype Row = Row(id: Id, rootId: Id)

  // ---------------------------------------------------------------------------
  // Walking up
  // ---------------------------------------------------------------------------

  /** The folder k parents above id. */
  function Up(fs: Folders, id: Id, k: nat): Option<Id>
    decreases k
  {
    if id !in fs then None
    else if k == 0 then Some(id)
    else if fs[id].parent.None? then None
    else Up(fs, fs[id].parent.value, k - 1)
  }

  /** id is exactly n steps below a root folder. */
  predicate Depth(fs: Folders, id: Id, n: nat)
    decreases n
  {
    id in fs && if n == 0 then fs[id].parent.None? else fs[id].parent.Some? && Depth(fs, fs[id].parent.value, n - 1)
  }

  function Top(fs: Folders, id: Id, n: nat): Id
    requires Depth(fs, id, n)
    decreases n
  {
    if n == 0 then id else Top(fs, fs[id].parent.value, n - 1)
  }

  /** The root found by following parents, if they ever end. */
  ghost function WalkUp(fs: Folders, id: Id): Option<Id> {
    if n: nat :| Depth(fs, id, n) then Some(Top(fs, id, n)) else None
  }

  lemma {:induction false} DepthUnique(fs: Folders, id: Id, m: nat, n: nat)
    requires Depth(fs, id, m) && Depth(fs, id, n)
    ensures m == n
    decreases m
  {
    if m > 0 && n > 0 { DepthUnique(fs, fs[id].parent.value, m - 1, n - 1); }
  }

  lemma WalkUpAt(fs: Folders, id: Id, n: nat)
    requires Depth(fs, id, n)
    ensures WalkUp(fs, id) == Some(Top(fs, id, n))
  {
    var m: nat :| Depth(fs, id, m) && WalkUp(fs, id) == Some(Top(fs, id, m));
    DepthUnique(fs, id, m, n);
  }

  lemma {:induction false} UpFromDepth(fs: Folders, id: Id, n: nat, k: nat)
    requires Depth(fs, id, n)
    ensures k <= n ==> Up(fs, id, k).Some? && Depth(fs, Up(fs, id, k).value, n - k)
    ensures k > n ==> Up(fs, id, k) == None
    decreases n
  {
    if k > 0 && n > 0 { UpFromDepth(fs, fs[id].parent.value, n - 1, k - 1); }
  }

  // ---------------------------------------------------------------------------
  // The recursive query
  // ---------------------------------------------------------------------------

  ghost predicate NoDuplicates(ids: seq<Id>) {
    forall i, j :: 0 <= i < j < |ids| ==> ids[i] != ids[j]
  }

  /** scan lists the table's rows in whatever order the engine reads them. */
  ghost predicate Scans(scan: seq<Id>, fs: Folders) {
    NoDuplicates(scan) && forall id :: id in scan <==> id in fs
  }

  /** No folder occurs in two rows. */
  ghost predicate OncePerFolder(rows: seq<Row>) {
    forall i, j :: 0 <= i < j < |rows| ==> rows[i].id != rows[j].id
  }

  /** The query's first part: every folder without a parent is its own root. */
  function Roots(fs: Folders, scan: seq<Id>): seq<Row>
    requires forall id :: id in scan ==> id in fs
  {
    if scan == [] then []
    else (if fs[scan[0]].parent.None? then [Row(scan[0], scan[0])] else []) + Roots(fs, scan[1..])
  }

  /** The rows the join produces for one row of the working table. */
  function Children(fs: Folders, scan: seq<Id>, t: Row): seq<Row>
    requires forall id :: id in scan ==> id in fs
  {
    if scan == [] then []
    else (if fs[scan[0]].parent == Some(t.id) then [Row(scan[0], t.rootId)] else []) + Children(fs, scan[1..], t)
  }

  /** The query's recursive part: every child of a row's folder, with that row's root. */
  function Join(fs: Folders, scan: seq<Id>, working: seq<Row>): seq<Row>
    requires forall id :: id in scan ==> id in fs
  {
    if working == [] then [] else Children(fs, scan, working[0]) + Join(fs, scan, working[1..])
  }

  /** rows hold, once each, the folders at depth n with their roots. */
  ghost predicate IsLevel(fs: Folders, n: nat, rows: seq<Row>) {
    && OncePerFolder(rows)
    && forall id, top :: Row(id, top) in rows <==> Depth(fs, id, n) && Top(fs, id, n) == top
  }

  lemma {:induction false} RootsAre(fs: Folders, scan: seq<Id>)
    requires NoDuplicates(scan) && forall id :: id in scan ==> id in fs
    ensures OncePerFolder(Roots(fs, scan))
    ensures forall r :: r in Roots(fs, scan) <==> r.id in scan && r.rootId == r.id && fs[r.id].parent.None?
  {
    if scan != [] { RootsAre(fs, scan[1..]); }
  }

  lemma {:induction false} ChildrenAre(fs: Folders, scan: seq<Id>, t: Row)
    requires NoDuplicates(scan) && forall id :: id in scan ==> id in fs
    ensures OncePerFolder(Children(fs, scan, t))
    ensures forall r :: r in Children(fs, scan, t) <==>
              r.id in scan && r.rootId == t.rootId && fs[r.id].parent == Some(t.id)
  {
    if scan != [] { ChildrenAre(fs, scan[1..], t); }
  }

  lemma {:induction false} JoinIs(fs: Folders, scan: seq<Id>, working: seq<Row>)
    requires NoDuplicates(scan) && (forall id :: id in scan ==> id in fs) && OncePerFolder(working)
    ensures OncePerFolder(Join(fs, scan, working))
    ensures forall r :: r in Join(fs, scan, working) <==>
              r.id in scan && fs[r.id].parent.Some? && Row(fs[r.id].parent.value, r.rootId) in working
  {
    if working != [] {
      var t, rest := working[0], working[1..];
      ChildrenAre(fs, scan, t);
      JoinIs(fs, scan, rest);
      var a, b := Children(fs, scan, t), Join(fs, scan, rest);
      forall i, j | 0 <= i < |a| && 0 <= j < |b| ensures a[i].id != b[j].id {
        assert a[i] in a && b[j] in b;
      }
    }
  }

  lemma NextLevel(fs: Folders, scan: seq<Id>, n: nat, working: seq<Row>)
    requires Scans(scan, fs) && IsLevel(fs, n, working)
    ensures IsLevel(fs, n + 1, Join(fs, scan, working))
  {
    JoinIs(fs, scan, working);
  }

  ghost predicate ReachesWithin(fs: Folders, id: Id, top: Id, n: nat) {
    exists m: nat :: m <= n && Depth(fs, id, m) && Top(fs, id, m) == top
  }

  /** tree holds, once each, the folders at depth n or less with their roots. */
  ghost predicate IsTree(fs: Folders, n: nat, tree: seq<Row>) {
    OncePerFolder(tree) && forall r :: r in tree <==> ReachesWithin(fs, r.id, r.rootId, n)
  }

  lemma TreeGrows(fs: Folders, n: nat, tree: seq<Row>, level: seq<Row>)
    requires IsTree(fs, n, tree) && IsLevel(fs, n + 1, level)
    ensures IsTree(fs, n + 1, tree + level)
  {
    forall i, j | 0 <= i < |tree| && 0 <= j < |level| ensures tree[i].id != level[j].id {
      assert tree[i] in tree && level[j] in level;
      var m: nat :| m <= n && Depth(fs, tree[i].id, m);
      assert level[j] == Row(level[j].id, level[j].rootId);
      if tree[i].id == level[j].id { DepthUnique(fs, tree[i].id, m, n + 1); }
    }
    forall r ensures r in tree + level <==> ReachesWithin(fs, r.id, r.rootId, n + 1) {
      assert r == Row(r.id, r.rootId);
      if ReachesWithin(fs, r.id, r.rootId, n + 1) && r !in level {
        var m: nat :| m <= n + 1 && Depth(fs, r.id, m) && Top(fs, r.id, m) == r.rootId;
        assert m <= n;
      }
    }
  }

  lemma {:induction false} RowsBounded(rows: seq<Row>, ids: set<Id>)
    requires OncePerFolder(rows) && forall r :: r in rows ==> r.id in ids
    ensures |rows| <= |ids|
  {
    if rows != [] { RowsBounded(rows[1..], ids - {rows[0].id}); }
  }

  lemma LevelListsDepth(fs: Folders, n: nat, rows: seq<Row>, id: Id)
    requires IsLevel(fs, n, rows) && Depth(fs, id, n)
    ensures Row(id, Top(fs, id, n)) in rows
  {
  }

  /** An empty working table means nothing deeper exists. */
  lemma NothingDeeper(fs: Folders, n: nat, id: Id, m: nat)
    requires IsLevel(fs, n, []) && Depth(fs, id, m)
    ensures m < n
  {
    if m >= n {
      UpFromDepth(fs, id, m, m - n);
      var a := Up(fs, id, m - n).value;
      LevelListsDepth(fs, n, [], a);
    }
  }

  lemma ReachesAll(fs: Folders, n: nat, r: Row)
    requires IsLevel(fs, n, [])
    ensures ReachesWithin(fs, r.id, r.rootId, n) <==> WalkUp(fs, r.id) == Some(r.rootId)
  {
    if m: nat :| Depth(fs, r.id, m) {
      NothingDeeper(fs, n, r.id, m);
      WalkUpAt(fs, r.id, m);
      if ReachesWithin(fs, r.id, r.rootId, n) {
        var k: nat :| k <= n && Depth(fs, r.id, k) && Top(fs, r.id, k) == r.rootId;
        DepthUnique(fs, r.id, k, m);
      }
    }
  }

  /** The query produces each folder at most once, so it ends, and pairs it with the root found by walking up. */
  method RecursiveTree(fs: Folders, scan: seq<Id>) returns (tree: seq<Row>)
    requires Scans(scan, fs)
    ensures OncePerFolder(tree)
    ensures forall r :: r in tree <==> WalkUp(fs, r.id) == Some(r.rootId)
  {
    RootsAre(fs, scan);
    var working := Roots(fs, scan);
    tree := working;
    ghost var n := 0;
    while working != []
      invariant IsLevel(fs, n, working) && IsTree(fs, n, tree)
      decreases |fs| - |tree|, |working|
    {
      NextLevel(fs, scan, n, working);
      working := Join(fs, scan, working);
      TreeGrows(fs, n, tree, working);
      tree := tree + working;
      n := n + 1;
      RowsBounded(tree, fs.Keys);
    }
    forall r ensures r in tree <==> WalkUp(fs, r.id) == Some(r.rootId) { ReachesAll(fs, n, r); }
  }

  // ---------------------------------------------------------------------------
  // The update
  // ---------------------------------------------------------------------------

  /** The table after the back-fill, folder by folder. */
  ghost function Backfilled(fs: Folders): Folders {
    map id | id in fs :: if fs[id].root.None? then fs[id].(root := WalkUp(fs, id)) else fs[id]
  }

  /** Some number of steps up from the folder is its root, which has no parent. */
  ghost predicate RootAbove(fs: Folders, id: Id, top: Id) {
    exists n: nat :: Depth(fs, id, n) && Top(fs, id, n) == top
  }

  /** Only pointers still unset change, and only to the root above; nothing is moved, added or removed. */
  ghost predicate OnlyPointersFilled(fs: Folders, gs: Folders) {
    && gs.Keys == fs.Keys
    && (forall id :: id in fs ==> gs[id].parent == fs[id].parent)
    && (forall id :: id in fs && fs[id].root.Some? ==> gs[id].root == fs[id].root)
    && forall id, top :: id in fs && fs[id].root.None? ==> (gs[id].root == Some(top) <==> RootAbove(fs, id, top))
  }

  lemma WalkUpIff(fs: Folders, id: Id, top: Id)
    ensures WalkUp(fs, id) == Some(top) <==> RootAbove(fs, id, top)
  {
    if n: nat :| Depth(fs, id, n) {
      WalkUpAt(fs, id, n);
      forall m: nat | Depth(fs, id, m) ensures m == n { DepthUnique(fs, id, m, n); }
    }
  }

  lemma BackfilledIs(fs: Folders)
    ensures OnlyPointersFilled(fs, Backfilled(fs))
  {
    hide WalkUp, RootAbove;
    forall id, top ensures WalkUp(fs, id) == Some(top) <==> RootAbove(fs, id, top) { WalkUpIff(fs, id, top); }
  }

  // ---------------------------------------------------------------------------
  // Main results
  // ---------------------------------------------------------------------------

  /** Pointers play no part in walking up. */
  lemma {:induction false} PointersDoNotMatter(fs: Folders, gs: Folders, id: Id, n: nat)
    requires fs.Keys == gs.Keys && forall a :: a in fs ==> gs[a].parent == fs[a].parent
    ensures Depth(fs, id, n) == Depth(gs, id, n)
    ensures Depth(fs, id, n) ==> Top(fs, id, n) == Top(gs, id, n)
    decreases n
  {
    if n > 0 && id in fs && fs[id].parent.Some? { PointersDoNotMatter(fs, gs, fs[id].parent.value, n - 1); }
  }

  lemma SameWalkUp(fs: Folders, gs: Folders, id: Id)
    requires fs.Keys == gs.Keys && forall a :: a in fs ==> gs[a].parent == fs[a].parent
    ensures WalkUp(fs, id) == WalkUp(gs, id)
  {
    if n: nat :| Depth(fs, id, n) {
      PointersDoNotMatter(fs, gs, id, n);
      WalkUpAt(fs, id, n);
      WalkUpAt(gs, id, n);
    } else if n: nat :| Depth(gs, id, n) {
      PointersDoNotMatter(fs, gs, id, n);
    }
  }

  /** A second run changes nothing. */
  lemma SecondRunIsIdle(fs: Folders)
    ensures Backfilled(Backfilled(fs)) == Backfilled(fs)
  {
    var gs := Backfilled(fs);
    forall id | id in fs ensures Backfilled(gs)[id] == gs[id] { SameWalkUp(fs, gs, id); }
  }

  ghost predicate PointersRight(fs: Folders) {
    forall id :: id in fs ==> fs[id].root.Some? && fs[id].root == WalkUp(fs, id)
  }

  /** Every pointer is right afterwards exactly when the pointers already set were right and every folder has a root. */
  lemma AllRightAfterwards(fs: Folders)
    ensures PointersRight(Backfilled(fs)) <==>
            forall id :: id in fs ==> WalkUp(fs, id).Some? && (fs[id].root.Some? ==> fs[id].root == WalkUp(fs, id))
  {
    var gs := Backfilled(fs);
    forall id ensures WalkUp(fs, id) == WalkUp(gs, id) { SameWalkUp(fs, gs, id); }
    if PointersRight(gs) {
      forall id | id in fs ensures WalkUp(fs, id).Some? && (fs[id].root.Some? ==> fs[id].root == WalkUp(fs, id)) {
        assert gs[id].root.Some?;
      }
    }
  }

  /** The foreign key of the parent column. */
  ghost predicate ParentsExist(fs: Folders) {
    forall id :: id in fs && fs[id].parent.Some? ==> fs[id].parent.value in fs
  }

  /** With no root above it, a folder has an ancestor at every distance. */
  lemma {:induction false} NoEndInSight(fs: Folders, id: Id, k: nat)
    requires ParentsExist(fs) && id in fs && WalkUp(fs, id).None?
    ensures Up(fs, id, k).Some? && Up(fs, id, k).value in fs && WalkUp(fs, Up(fs, id, k).value).None?
    decreases k
  {
    if k > 0 {
      assert fs[id].parent.Some? by { if fs[id].parent.None? { assert Depth(fs, id, 0); } }
      var up := fs[id].parent.value;
      if n: nat :| Depth(fs, up, n) { assert Depth(fs, id, n + 1); }
      NoEndInSight(fs, up, k - 1);
    }
  }

  lemma {:induction false} Pigeonhole(xs: seq<Id>, ids: set<Id>)
    requires (forall i :: 0 <= i < |xs| ==> xs[i] in ids) && NoDuplicates(xs)
    ensures |xs| <= |ids|
  {
    if xs != [] { Pigeonhole(xs[1..], ids - {xs[0]}); }
  }

  ghost predicate Loops(fs: Folders, id: Id) {
    exists i: nat, j: nat :: i < j <= |fs| && Up(fs, id, i).Some? && Up(fs, id, i) == Up(fs, id, j)
  }

  lemma RootlessLoops(fs: Folders, id: Id)
    requires ParentsExist(fs) && id in fs && WalkUp(fs, id).None?
    ensures Loops(fs, id)
  {
    forall k: nat ensures Up(fs, id, k).Some? && Up(fs, id, k).value in fs { NoEndInSight(fs, id, k); }
    var xs := seq(|fs| + 1, k requires 0 <= k <= |fs| => Up(fs, id, k).value);
    if NoDuplicates(xs) {
      assert forall i :: 0 <= i < |xs| ==> xs[i] in fs.Keys;
      Pigeonhole(xs, fs.Keys);
    } else {
      var i: nat, j: nat :| i < j < |xs| && xs[i] == xs[j];
      assert Up(fs, id, i) == Up(fs, id, j);
    }
  }

  lemma LoopsRootless(fs: Folders, id: Id, n: nat, i: nat, j: nat)
    requires Depth(fs, id, n) && i < j && Up(fs, id, i).Some?
    ensures Up(fs, id, i) != Up(fs, id, j)
  {
    UpFromDepth(fs, id, n, i);
    UpFromDepth(fs, id, n, j);
    if Up(fs, id, i) == Up(fs, id, j) { DepthUnique(fs, Up(fs, id, i).value, n - i, n - j); }
  }

  /** The folders left alone for want of a root are exactly those whose ancestors run into a cycle. */
  lemma RootlessIffCyclic(fs: Folders, id: Id)
    requires ParentsExist(fs) && id in fs
    ensures WalkUp(fs, id).None? <==> Loops(fs, id)
  {
    if WalkUp(fs, id).None? {
      RootlessLoops(fs, id);
    } else if Loops(fs, id) {
      var n: nat :| Depth(fs, id, n);
      var i: nat, j: nat :| i < j <= |fs| && Up(fs, id, i).Some? && Up(fs, id, i) == Up(fs, id, j);
      LoopsRootless(fs, id, n, i, j);
    }
  }

  // ---------------------------------------------------------------------------
  // The table
  // ---------------------------------------------------------------------------

  function Find(tree: seq<Row>, id: Id): (root: Option<Id>)
    ensures root.Some? ==> Row(id, root.value) in tree
    ensures root.None? ==> forall r :: r in tree ==> r.id != id
  {
    if tree == [] then None else if tree[0].id == id then Some(tree[0].rootId) else Find(tree[1..], id)
  }

  class FolderTable {
    var folders: Folders

    /** Every pointer still unset takes the root the query found for its folder, if it found one. */
    method Backfill(scan: seq<Id>)
      requires Scans(scan, folders)
      modifies this
      ensures folders == Backfilled(old(folders))
      ensures OnlyPointersFilled(old(folders), folders)
    {
      BackfilledIs(folders);
      var tree := RecursiveTree(folders, scan);
      folders := map id | id in folders ::
          if folders[id].root.None? && Find(tree, id).Some? then folders[id].(root := Find(tree, id)) else folders[id];
      forall id | id in folders ensures Find(tree, id) == WalkUp(old(folders), id) {
        if WalkUp(old(folders), id).Some? { assert Row(id, WalkUp(old(folders), id).value) in tree; }
      }
    }
  }
}
