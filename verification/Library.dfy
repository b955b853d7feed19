/**
 The library: the Folders and Files tables with their two foreign keys, the
 statements that change them, and the two recursive closures over them. The
 root row is its own parent.
 */
module Library {
  import opened Sums
  import opened Wrappers

  /** `ROOT` is the placeholder ID of the root row. */
  datatype Id = ROOT | Given(id: Text)

  datatype Folder = Folder(parent: Id, owner: Option<Text>, added: int, name: string, hash: Option<Text>, size: int)

  datatype File = File(folder: Id, owner: Option<Text>, added: int, name: string, size: int)

  datatype Tables = Tables(folders: map<Id, Folder>, files: map<Id, File>)

  // ------------------------------------------------------------------ tree shape

  /** `depth` witnesses that every folder hangs below the root. */
  ghost predicate Ranked(t: Tables, depth: map<Id, nat>) {
    && ROOT in t.folders && t.folders[ROOT].parent == ROOT
    && depth.Keys == t.folders.Keys
    && forall f :: f in t.folders && f != ROOT ==>
         t.folders[f].parent in t.folders && depth[f] == depth[t.folders[f].parent] + 1
  }

  /** The folders form a tree at the root, and every file is in one of them. */
  ghost predicate Tree(t: Tables) {
    && (exists depth :: Ranked(t, depth))
    && forall f :: f in t.files ==> t.files[f].folder in t.folders
  }

  /** The tables after the first migration. */
  function Seeded(added: int): Tables {
    Tables(map[ROOT := Folder(ROOT, None, added, "Root", None, 0)], map[])
  }

  lemma SeededTree(added: int)
    ensures Tree(Seeded(added))
  {
    assert Ranked(Seeded(added), map[ROOT := 0]);
  }

  /** `k` steps up from `f`; a folder that is not in the table has nowhere to go. */
  ghost function Up(t: Tables, f: Id, k: nat): Id
    decreases k
  {
    if k == 0 || f !in t.folders then f else Up(t, t.folders[f].parent, k - 1)
  }

  /** The folders `k` levels below `id`. */
  ghost function Level(t: Tables, id: Id, k: nat): set<Id> {
    set f | f in t.folders && id in t.folders && Up(t, f, k) == id
  }

  /** A folder and everything below it. */
  ghost function Subtree(t: Tables, id: Id): set<Id> {
    set f | f in t.folders && exists k :: f in Level(t, id, k)
  }

  lemma LevelNext(t: Tables, id: Id, k: nat, f: Id)
    requires f in t.folders && t.folders[f].parent in t.folders
    ensures f in Level(t, id, k + 1) <==> t.folders[f].parent in Level(t, id, k)
  {
  }

  lemma LevelZero(t: Tables, id: Id)
    ensures Level(t, id, 0) == if id in t.folders then {id} else {}
  {
  }

  lemma {:induction false} RootLevel(t: Tables, k: nat)
    requires Tree(t)
    ensures Up(t, ROOT, k) == ROOT && ROOT in Level(t, ROOT, k)
  {
    if k > 0 {
      RootLevel(t, k - 1);
    }
  }

  /** Below anything but the root, the level of a folder is fixed by its depth. */
  lemma {:induction false} LevelDepth(t: Tables, depth: map<Id, nat>, id: Id, k: nat, f: Id)
    requires Ranked(t, depth) && Tree(t) && id != ROOT && f in Level(t, id, k)
    ensures depth[f] == depth[id] + k && f != ROOT
  {
    if f == ROOT {
      RootLevel(t, k);
    } else if k > 0 {
      LevelNext(t, id, k - 1, f);
      LevelDepth(t, depth, id, k - 1, t.folders[f].parent);
    }
  }

  lemma TreeRoot(t: Tables)
    requires Tree(t)
    ensures ROOT in t.folders
  {
  }

  lemma RootNotBelow(t: Tables, id: Id)
    requires Tree(t) && id != ROOT
    ensures ROOT !in Subtree(t, id)
  {
    if ROOT in Subtree(t, id) {
      var k :| ROOT in Level(t, id, k);
      RootLevel(t, k);
    }
  }

  // --------------------------------------------------------------- UNION ALL closure

  /** The children of `parent`, once each. */
  function Children(t: Tables, parent: Id): set<Id> {
    set f | f in t.folders && t.folders[f].parent == parent
  }

  method Listed(ids: set<Id>) returns (order: seq<Id>)
    ensures Enumerates(order, ids)
  {
    order := [];
    var rest := ids;
    while rest != {}
      invariant rest <= ids && Enumerates(order, ids - rest)
      decreases |rest|
    {
      var id := Choose(rest);
      EnumeratesNext(order, ids - rest, id);
      rest := rest - {id};
      assert ids - rest == ids - (rest + {id}) + {id};
      order := order + [id];
    }
    assert ids - rest == ids;
  }

  ghost function ChildrenOf(t: Tables, parents: set<Id>): set<Id> {
    set f | f in t.folders && t.folders[f].parent in parents
  }

  function Elements(s: seq<Id>): set<Id> {
    set x | x in s
  }

  /** One step of the recursion: the rows of the last level joined with the table. */
  method JoinLevel(t: Tables, frontier: seq<Id>) returns (next: seq<Id>)
    requires Enumerates(frontier, Elements(frontier))
    ensures Enumerates(next, ChildrenOf(t, Elements(frontier)))
  {
    next := [];
    for k := 0 to |frontier|
      invariant Enumerates(next, ChildrenOf(t, Elements(frontier[..k])))
    {
      var more := Listed(Children(t, frontier[k]));
      var before := Elements(frontier[..k]);
      assert frontier[k] !in before && Elements(frontier[..k + 1]) == before + {frontier[k]};
      EnumeratesConcat(next, more, ChildrenOf(t, before), Children(t, frontier[k]));
      assert ChildrenOf(t, before + {frontier[k]}) == ChildrenOf(t, before) + Children(t, frontier[k]);
      next := next + more;
    }
    assert frontier[..|frontier|] == frontier;
  }

  lemma EnumeratesConcat(a: seq<Id>, b: seq<Id>, s: set<Id>, t: set<Id>)
    requires Enumerates(a, s) && Enumerates(b, t) && s !! t
    ensures Enumerates(a + b, s + t)
  {
  }

  /** Every listed folder but `id` itself comes after its parent. */
  ghost predicate ParentsFirst(t: Tables, id: Id, s: seq<Id>) {
    forall i :: 0 <= i < |s| && s[i] != id ==>
      s[i] in t.folders && exists j :: 0 <= j < i && s[j] == t.folders[s[i]].parent
  }

  /** Levels 0 to `k`. */
  ghost function Upper(t: Tables, id: Id, k: int): set<Id> {
    set f | f in t.folders && exists i: nat :: i <= k && f in Level(t, id, i)
  }

  lemma EnumeratesElements(s: seq<Id>, ids: set<Id>)
    requires Enumerates(s, ids)
    ensures ids == Elements(s)
  {
    assert ids <= Elements(s);
    assert forall x :: x in s ==> x in ids;
  }

  lemma LevelChildren(t: Tables, id: Id, k: nat)
    requires Tree(t)
    ensures ChildrenOf(t, Level(t, id, k)) == Level(t, id, k + 1)
  {
  }

  lemma {:induction false} EmptyAbove(t: Tables, id: Id, k: nat, m: nat)
    requires Tree(t) && Level(t, id, k) == {} && k <= m
    ensures Level(t, id, m) == {}
    decreases m
  {
    hide Tree, Level;
    if k < m {
      EmptyAbove(t, id, k, m - 1);
      LevelChildren(t, id, m - 1);
    }
  }

  lemma LevelsStart(t: Tables, id: Id)
    ensures var rows := if id in t.folders then [id] else [];
            && Enumerates(rows, Level(t, id, 0))
            && Enumerates(rows, Upper(t, id, 0))
            && ParentsFirst(t, id, rows)
  {
    LevelZero(t, id);
    assert Upper(t, id, 0) == Level(t, id, 0);
  }

  lemma UpperNext(t: Tables, id: Id, k: nat)
    requires Tree(t) && id != ROOT
    ensures Upper(t, id, k) !! Level(t, id, k + 1)
    ensures Upper(t, id, k + 1) == Upper(t, id, k) + Level(t, id, k + 1)
  {
    var depth :| Ranked(t, depth);
    var next := Level(t, id, k + 1);
    assert next <= t.folders.Keys;
    hide Tree, Ranked, Level, Up;
    forall f | f in Upper(t, id, k) ensures f !in next {
      var i: nat :| i <= k && f in Level(t, id, i);
      LevelDepth(t, depth, id, i, f);
      if f in next {
        LevelDepth(t, depth, id, k + 1, f);
      }
    }
    forall f | f in t.folders ensures f in Upper(t, id, k + 1) <==> f in Upper(t, id, k) || f in next {
      if f in Upper(t, id, k + 1) {
        var i: nat :| i <= k + 1 && f in Level(t, id, i);
      }
    }
  }

  lemma ParentsFirstNext(t: Tables, id: Id, k: nat, frontier: seq<Id>, rows: seq<Id>, next: seq<Id>)
    requires Enumerates(rows, Upper(t, id, k)) && ParentsFirst(t, id, rows)
    requires Enumerates(frontier, Level(t, id, k)) && Enumerates(next, ChildrenOf(t, Level(t, id, k)))
    ensures ParentsFirst(t, id, rows + next)
  {
    var all := rows + next;
    forall i | 0 <= i < |all| && all[i] != id
      ensures all[i] in t.folders && exists j :: 0 <= j < i && all[j] == t.folders[all[i]].parent
    {
      if i < |rows| {
        assert all[i] == rows[i];
        var j :| 0 <= j < i && rows[j] == t.folders[rows[i]].parent;
        assert all[j] == rows[j];
      } else {
        assert next[i - |rows|] in ChildrenOf(t, Level(t, id, k));
        var parent := t.folders[all[i]].parent;
        assert parent in Upper(t, id, k);
        assert parent in rows;
        var j :| 0 <= j < |rows| && rows[j] == parent;
        assert all[j] == rows[j];
      }
    }
  }

  lemma LevelsNext(t: Tables, id: Id, k: nat, frontier: seq<Id>, rows: seq<Id>, next: seq<Id>)
    requires Tree(t)
    requires Enumerates(frontier, Level(t, id, k)) && Enumerates(next, ChildrenOf(t, Elements(frontier)))
    requires id != ROOT ==> Enumerates(rows, Upper(t, id, k)) && ParentsFirst(t, id, rows)
    ensures Enumerates(next, Level(t, id, k + 1))
    ensures id != ROOT ==> Enumerates(rows + next, Upper(t, id, k + 1)) && ParentsFirst(t, id, rows + next)
  {
    EnumeratesElements(frontier, Level(t, id, k));
    LevelChildren(t, id, k);
    hide Tree, Level, Enumerates, ParentsFirst, ChildrenOf, Upper;
    if id != ROOT {
      UpperNext(t, id, k);
      EnumeratesConcat(rows, next, Upper(t, id, k), Level(t, id, k + 1));
      ParentsFirstNext(t, id, k, frontier, rows, next);
    }
  }

  lemma LevelsEnd(t: Tables, id: Id, k: nat, limit: nat, frontier: seq<Id>)
    requires Tree(t) && Enumerates(frontier, Level(t, id, k)) && k <= limit + 1
    requires frontier == [] || k == limit + 1
    ensures frontier != [] <==> Level(t, id, limit + 1) != {}
    ensures frontier == [] ==> id != ROOT && Upper(t, id, k) == Subtree(t, id)
  {
    assert frontier == [] <==> Level(t, id, k) == {} by {
      if frontier != [] {
        assert frontier[0] in Level(t, id, k);
      }
    }
    if frontier == [] {
      EmptyAbove(t, id, k, limit + 1);
      RootLevel(t, k);
      forall f | f in Subtree(t, id) ensures f in Upper(t, id, k) {
        var i: nat :| f in Level(t, id, i);
        if i > k {
          EmptyAbove(t, id, k, i);
        }
      }
    }
  }

  /**
   The rows of `getFoldersToDelete`, evaluated level by level. The database gives
   up when the recursion passes `limit`, which is always the case at the root.
   */
  method GetFoldersToDelete(t: Tables, id: Id, limit: nat) returns (r: Option<seq<Id>>)
    requires Tree(t)
    ensures r.None? <==> Level(t, id, limit + 1) != {}
    ensures r.Some? ==> Enumerates(r.value, Subtree(t, id)) && ParentsFirst(t, id, r.value)
  {
    hide Tree, Level, Enumerates, ParentsFirst;
    var frontier := if id in t.folders then [id] else [];
    var rows, k := frontier, 0;
    LevelsStart(t, id);
    while frontier != [] && k <= limit
      invariant 0 <= k <= limit + 1
      invariant Enumerates(frontier, Level(t, id, k))
      invariant id != ROOT ==> Enumerates(rows, Upper(t, id, k)) && ParentsFirst(t, id, rows)
      decreases limit + 1 - k
    {
      assert Level(t, id, k) == Elements(frontier) by {
        EnumeratesElements(frontier, Level(t, id, k));
      }
      var next := JoinLevel(t, frontier);
      LevelsNext(t, id, k, frontier, rows, next);
      rows, frontier, k := rows + next, next, k + 1;
    }
    LevelsEnd(t, id, k, limit, frontier);
    r := if frontier == [] then Some(rows) else None;
  }

  /** Without a limit the recursion ends, unless it starts at the root. */
  lemma ClosureTerminates(t: Tables, id: Id)
    requires Tree(t) && id in t.folders
    ensures (exists k :: Level(t, id, k) == {}) <==> id != ROOT
  {
    if id == ROOT {
      forall k ensures Level(t, id, k) != {} {
        RootLevel(t, k);
      }
    } else {
      var depth: map<Id, nat> :| Ranked(t, depth);
      var ranks: map<Id, int> := map f | f in depth :: depth[f];
      SumNonNegative(ranks);
      var k: nat := Sum(ranks) + 1;
      forall f | f in t.folders ensures f !in Level(t, id, k) {
        assert ranks[f] <= Sum(ranks);
        if f in Level(t, id, k) {
          LevelDepth(t, depth, id, k, f);
        }
      }
      assert Level(t, id, k) == {};
    }
  }

  // ------------------------------------------------------------ UNION DISTINCT closure

  ghost predicate OwnedBy(t: Tables, ids: set<Id>, user: Text) {
    && (forall f :: f in ids && f in t.folders ==> t.folders[f].owner == Some(user))
    && forall f :: f in t.files && t.files[f].folder in ids ==> t.files[f].owner == Some(user)
  }

  /** The closure ends on every table, even one with cycles or missing parents. */
  method DistinctClosure(t: Tables, id: Id) returns (seen: set<Id>)
    ensures seen == Subtree(t, id)
  {
    hide Subtree;
    seen := if id in t.folders then {id} else {};
    var frontier := seen;
    SelfInSubtree(t, id);
    SubtreeClosed(t, id);
    while frontier != {}
      invariant frontier <= seen <= Subtree(t, id)
      invariant id in t.folders ==> id in seen
      invariant forall f :: f in t.folders && t.folders[f].parent in seen - frontier ==> f in seen
      decreases |t.folders.Keys - seen|, |frontier|
    {
      var next := set f | f in t.folders && t.folders[f].parent in frontier && f !in seen;
      FewerLeft(t.folders.Keys, seen, next);
      frontier := next;
      seen := seen + next;
    }
    ClosureAll(t, id, seen);
  }

  lemma FewerLeft(all: set<Id>, seen: set<Id>, next: set<Id>)
    requires next <= all && next !! seen
    ensures |all - (seen + next)| == |all - seen| - |next|
    ensures |next| == 0 <==> next == {}
  {
    assert all - seen == (all - (seen + next)) + next;
  }

  lemma SelfInSubtree(t: Tables, id: Id)
    ensures id in t.folders ==> id in Subtree(t, id)
  {
    LevelZero(t, id);
  }

  lemma ClosureAll(t: Tables, id: Id, seen: set<Id>)
    requires id in t.folders ==> id in seen
    requires forall f :: f in t.folders && t.folders[f].parent in seen ==> f in seen
    ensures Subtree(t, id) <= seen
  {
    forall f | f in Subtree(t, id) ensures f in seen {
      var k :| f in Level(t, id, k);
      ClosureComplete(t, id, seen, k, f);
    }
  }

  /** Children of a subtree belong to it. */
  lemma SubtreeClosed(t: Tables, id: Id)
    ensures forall f :: f in t.folders && t.folders[f].parent in Subtree(t, id) ==> f in Subtree(t, id)
  {
    forall f | f in t.folders && t.folders[f].parent in Subtree(t, id) ensures f in Subtree(t, id) {
      var k :| t.folders[f].parent in Level(t, id, k);
      LevelNext(t, id, k, f);
    }
  }

  lemma {:induction false} ClosureComplete(t: Tables, id: Id, seen: set<Id>, k: nat, f: Id)
    requires id in t.folders && id in seen && f in t.folders && Up(t, f, k) == id
    requires forall f :: f in t.folders && t.folders[f].parent in seen ==> f in seen
    ensures f in seen
    decreases k
  {
    if k > 0 {
      ClosureComplete(t, id, seen, k - 1, t.folders[f].parent);
    }
  }

  /** The ownership query, over every table: one row of another owner, or of none, decides. */
  method LibrarySubtreeOwned(t: Tables, id: Id, user: Text) returns (owned: bool)
    ensures owned <==> OwnedBy(t, Subtree(t, id), user)
  {
    var subtree := DistinctClosure(t, id);
    var folders := set f | f in t.folders && f in subtree && t.folders[f].owner != Some(user);
    var files := set f | f in t.files && t.files[f].folder in subtree && t.files[f].owner != Some(user);
    owned := |folders| + |files| == 0;
    assert owned <==> folders == {} && files == {};
    if owned {
      forall f | f in subtree && f in t.folders ensures t.folders[f].owner == Some(user) {
        assert f !in folders;
      }
      forall f | f in t.files && t.files[f].folder in subtree ensures t.files[f].owner == Some(user) {
        assert f !in files;
      }
    }
  }

  // ---------------------------------------------------------------------- statements

  /** INSERT INTO Folders: refused by the primary key and by the foreign key, which a row may meet itself. */
  function InsertFolder(t: Tables, id: Id, row: Folder): Option<Tables> {
    if id in t.folders || (row.parent !in t.folders && row.parent != id) then None
    else Some(t.(folders := t.folders[id := row]))
  }

  function InsertFile(t: Tables, id: Id, row: File): Option<Tables> {
    if id in t.files || row.folder !in t.folders then None
    else Some(t.(files := t.files[id := row]))
  }

  /** DELETE FROM Folders: refused while another folder or a file refers to the row. */
  function DeleteFolder(t: Tables, id: Id): Option<Tables> {
    if (exists f :: f in t.folders && f != id && t.folders[f].parent == id)
       || (exists f :: f in t.files && t.files[f].folder == id)
    then None
    else Some(t.(folders := t.folders - {id}))
  }

  function DeleteFilesIn(t: Tables, folder: Id): Tables {
    t.(files := map f | f in t.files && t.files[f].folder != folder :: t.files[f])
  }

  function DeleteFile(t: Tables, id: Id): Tables {
    t.(files := t.files - {id})
  }

  /** A new folder keeps the tree, unless it was inserted as its own parent. */
  lemma InsertFolderTree(t: Tables, id: Id, row: Folder)
    requires Tree(t) && InsertFolder(t, id, row).Some?
    ensures Tree(InsertFolder(t, id, row).value) <==> row.parent != id
  {
    var t' := InsertFolder(t, id, row).value;
    if row.parent != id {
      var depth: map<Id, nat> :| Ranked(t, depth);
      assert Ranked(t', depth[id := depth[row.parent] + 1]);
    } else {
      forall depth: map<Id, nat> ensures !Ranked(t', depth) {
        if depth.Keys == t'.folders.Keys {
          assert t'.folders[id].parent == id && id != ROOT;
        }
      }
    }
  }

  lemma InsertFileTree(t: Tables, id: Id, row: File)
    requires Tree(t) && InsertFile(t, id, row).Some?
    ensures Tree(InsertFile(t, id, row).value)
  {
    var depth: map<Id, nat> :| Ranked(t, depth);
    assert Ranked(InsertFile(t, id, row).value, depth);
  }

  // ------------------------------------------------------------ whole subtrees removed

  /** The tables without some folders and the files in them. */
  ghost function Without(t: Tables, ids: set<Id>): Tables {
    Tables(t.folders - ids, map f | f in t.files && t.files[f].folder !in ids :: t.files[f])
  }

  /** With a folder, everything below it. */
  ghost predicate DownClosed(t: Tables, ids: set<Id>) {
    ids <= t.folders.Keys && forall f :: f in t.folders && t.folders[f].parent in ids ==> f in ids
  }

  lemma SubtreeDownClosed(t: Tables, id: Id)
    ensures DownClosed(t, Subtree(t, id))
  {
    SubtreeClosed(t, id);
  }

  lemma WithoutTree(t: Tables, ids: set<Id>)
    requires Tree(t) && DownClosed(t, ids) && ROOT !in ids
    ensures Tree(Without(t, ids))
  {
    var depth: map<Id, nat> :| Ranked(t, depth);
    var t' := Without(t, ids);
    assert Ranked(t', depth - ids) by {
      assert (depth - ids).Keys == t'.folders.Keys;
    }
  }

  lemma {:induction false} UpWithout(t: Tables, ids: set<Id>, f: Id, k: nat)
    requires DownClosed(t, ids) && f !in ids
    ensures Up(Without(t, ids), f, k) == Up(t, f, k) && Up(t, f, k) !in ids
    decreases k
  {
    if k > 0 && f in t.folders {
      UpWithout(t, ids, t.folders[f].parent, k - 1);
    }
  }

  /** Removing other subtrees leaves of a subtree what was in none of them. */
  lemma SubtreeWithout(t: Tables, ids: set<Id>, id: Id)
    requires DownClosed(t, ids) && id !in ids
    ensures Subtree(Without(t, ids), id) == Subtree(t, id) - ids
  {
    var t' := Without(t, ids);
    forall f | f in t'.folders ensures f in Subtree(t', id) <==> f in Subtree(t, id) {
      forall k: nat ensures f in Level(t', id, k) <==> f in Level(t, id, k) {
        UpWithout(t, ids, f, k);
      }
      if f in Subtree(t, id) {
        var k :| f in Level(t, id, k);
        assert f in Level(t', id, k);
      }
    }
  }

  /** A subtree that starts inside a closed set lies inside it. */
  lemma SubtreeInside(t: Tables, ids: set<Id>, id: Id)
    requires DownClosed(t, ids) && id in ids
    ensures Subtree(t, id) <= ids
  {
    forall f | f in Subtree(t, id) ensures f in ids {
      var k :| f in Level(t, id, k);
      ClosureComplete(t, id, ids, k, f);
    }
  }
}
