/**
 The two handlers that delete from the library. A request is atomic: its reads,
 the ownership check and its transaction see the same tables. `down` numbers the
 first database statement that fails; from there on the connection is gone.
 */
module Folders {
  import opened Library
  import opened Wrappers

  datatype Cause = NoUser | Statement | ForeignKey | TooDeep | Commit

  datatype Response = Done | Unauthorized | BadRequest | Forbidden | NotFound | Failed(cause: Cause)

  /** The view of a transaction, or why it was rolled back. */
  datatype Tx = Tx(tables: Tables) | Broken(cause: Cause)

  // --------------------------------------------------------------- one subtree

  lemma {:induction false} EnumeratesCard(order: seq<Id>, ids: set<Id>, all: set<Id>)
    requires Enumerates(order, ids) && ids <= all
    ensures |order| == |ids| <= |all|
  {
    if order == [] {
      assert ids == {};
    } else {
      var x, rest := order[|order| - 1], order[..|order| - 1];
      forall id | id in ids - {x} ensures id in rest {
        assert id in order;
        assert order == rest + [x];
      }
      EnumeratesCard(rest, ids - {x}, all - {x});
    }
  }

  /** Below a listed folder there is nothing that is listed before it. */
  lemma ChildLater(t: Tables, id: Id, ids: seq<Id>, i: int, f: Id)
    requires Tree(t) && id != ROOT && Enumerates(ids, Subtree(t, id)) && ParentsFirst(t, id, ids)
    requires 0 <= i < |ids| && f in t.folders && t.folders[f].parent == ids[i] && f != ids[i]
    ensures f in ids[i + 1..]
  {
    SubtreeClosed(t, id);
    assert f in ids;
    var j :| 0 <= j < |ids| && ids[j] == f;
    if f == id {
      var depth: map<Id, nat> :| Ranked(t, depth);
      var k :| ids[i] in Level(t, id, k);
      LevelDepth(t, depth, id, k, ids[i]);
      assert false;
    } else {
      var p :| 0 <= p < j && ids[p] == t.folders[ids[j]].parent;
      assert p == i;
      assert f == ids[i + 1..][j - (i + 1)];
    }
  }

  lemma ElementsFrom(ids: seq<Id>, i: int, all: set<Id>)
    requires Enumerates(ids, all) && 0 <= i < |ids|
    ensures ids[i] in all && ids[i] !in ids[i + 1..]
    ensures Elements(ids[i..]) == Elements(ids[i + 1..]) + {ids[i]}
  {
    assert ids[i..] == [ids[i]] + ids[i + 1..];
  }

  lemma FolderListed(t: Tables, id: Id, ids: seq<Id>, i: int)
    requires Tree(t) && id != ROOT && Enumerates(ids, Subtree(t, id)) && 0 <= i < |ids|
    ensures ids[i] in Subtree(t, id) && ids[i] in t.folders && ids[i] != ROOT && ids[i] !in ids[i + 1..]
    ensures Elements(ids[i..]) == Elements(ids[i + 1..]) + {ids[i]}
  {
    hide Tree, Enumerates, Elements;
    RootNotBelow(t, id);
    ElementsFrom(ids, i, Subtree(t, id));
  }

  lemma FolderFree(t: Tables, id: Id, ids: seq<Id>, i: int, tx: Tables)
    requires Tree(t) && id != ROOT && Enumerates(ids, Subtree(t, id)) && ParentsFirst(t, id, ids)
    requires 0 <= i < |ids| && tx.folders == t.folders - Elements(ids[i + 1..])
    requires forall f :: f in tx.files ==> tx.files[f].folder !in Subtree(t, id)
    ensures DeleteFolder(tx, ids[i]) == Some(tx.(folders := t.folders - Elements(ids[i..])))
  {
    FolderListed(t, id, ids, i);
    hide Enumerates, ParentsFirst, Subtree, Tree;
    forall f | f in tx.folders && f != ids[i] ensures tx.folders[f].parent != ids[i] {
      if t.folders[f].parent == ids[i] {
        ChildLater(t, id, ids, i, f);
      }
    }
    assert t.folders - Elements(ids[i..]) == tx.folders - {ids[i]};
  }

  method DeleteFilesOf(t: Tables, ids: seq<Id>, start: nat, down: nat) returns (r: Tx, n: nat)
    requires start <= down
    ensures r == if start + |ids| <= down then Tx(t.(files := Without(t, Elements(ids)).files)) else Broken(Statement)
    ensures r.Tx? ==> n == start + |ids|
  {
    var tx := t;
    n := start;
    for k := 0 to |ids|
      invariant n == start + k <= down
      invariant tx == t.(files := Without(t, Elements(ids[..k])).files)
    {
      if n >= down {
        return Broken(Statement), n;
      }
      assert ids[..k + 1] == ids[..k] + [ids[k]];
      tx, n := DeleteFilesIn(tx, ids[k]), n + 1;
    }
    assert ids[..|ids|] == ids;
    r := Tx(tx);
  }

  /**
   Files first, then the folders from the end of the list, so that no statement
   ever meets a foreign key. `log` records the folders deleted, in that order.
   */
  method DeleteSubtree(t: Tables, ghost id: Id, ids: seq<Id>, deleted: set<Id>, start: nat, down: nat)
    returns (r: Tx, deleted': set<Id>, n: nat, ghost log: seq<Id>)
    requires Tree(t) && id != ROOT && Enumerates(ids, Subtree(t, id)) && ParentsFirst(t, id, ids)
    requires deleted !! t.folders.Keys && start <= down
    ensures r == if start + 2 * |ids| <= down then Tx(Without(t, Subtree(t, id))) else Broken(Statement)
    ensures r.Tx? ==> deleted' == deleted + Subtree(t, id) && n == start + 2 * |ids|
    ensures r.Tx? ==> Enumerates(log, Subtree(t, id))
  {
    EnumeratesElements(ids, Subtree(t, id));
    EnumeratesNone<Id>();
    deleted', log := deleted, [];
    r, n := DeleteFilesOf(t, ids, start, down);
    if r.Broken? {
      return;
    }
    var tx := r.tables;
    hide Tree, Subtree, ParentsFirst, Enumerates, DeleteFolder;
    for i := |ids| downto 0
      invariant n == start + |ids| + (|ids| - i) <= down
      invariant tx == Tables(t.folders - Elements(ids[i..]), Without(t, Subtree(t, id)).files)
      invariant deleted' == deleted + Elements(ids[i..])
      invariant Enumerates(log, Elements(ids[i..]))
    {
      FolderListed(t, id, ids, i);
      FolderFree(t, id, ids, i, tx);
      if ids[i] != ROOT && ids[i] !in deleted' {
        if n >= down {
          return Broken(Statement), deleted', n, log;
        }
        var next := DeleteFolder(tx, ids[i]);
        if next == None {
          return Broken(ForeignKey), deleted', n, log;
        }
        EnumeratesNext(log, Elements(ids[i + 1..]), ids[i]);
        tx, n, deleted', log := next.value, n + 1, deleted' + {ids[i]}, log + [ids[i]];
      }
    }
    assert ids[0..] == ids;
    r := Tx(tx);
  }

  // ------------------------------------------------------------- several subtrees

  /** The folders in the subtrees of some folders. */
  ghost function Union(t: Tables, ids: set<Id>): set<Id> {
    set f | f in t.folders && exists id :: id in ids && f in Subtree(t, id)
  }

  lemma UnionDownClosed(t: Tables, ids: set<Id>)
    ensures DownClosed(t, Union(t, ids))
  {
    forall f | f in t.folders && t.folders[f].parent in Union(t, ids) ensures f in Union(t, ids) {
      var id :| id in ids && t.folders[f].parent in Subtree(t, id);
      SubtreeClosed(t, id);
    }
  }

  lemma UnionNotRoot(t: Tables, ids: set<Id>)
    requires Tree(t) && ROOT !in ids
    ensures ROOT !in Union(t, ids)
  {
    forall id | id in ids ensures ROOT !in Subtree(t, id) {
      RootNotBelow(t, id);
    }
  }

  lemma UnionNext(t: Tables, ids: set<Id>, id: Id)
    ensures Union(t, ids + {id}) == Union(t, ids) + Subtree(t, id)
  {
  }

  /** What one more iteration removes, when the folder is still there. */
  lemma SweepNext(t: Tables, ids: set<Id>, id: Id)
    requires Tree(t) && ROOT !in ids && id != ROOT && id !in Union(t, ids)
    ensures var tx := Without(t, Union(t, ids));
            && Tree(tx)
            && Without(tx, Subtree(tx, id)) == Without(t, Union(t, ids + {id}))
            && Union(t, ids) !! tx.folders.Keys
            && Union(t, ids) + Subtree(tx, id) == Union(t, ids + {id})
            && Union(t, ids) !! Subtree(tx, id)
            && forall k: nat :: Level(tx, id, k) <= Level(t, id, k)
  {
    var u := Union(t, ids);
    hide Tree, Union, Subtree, DownClosed;
    UnionDownClosed(t, ids);
    UnionNotRoot(t, ids);
    WithoutTree(t, u);
    SubtreeWithout(t, u, id);
    UnionNext(t, ids, id);
    WithoutTwice(t, u, Subtree(t, id) - u);
    assert u + (Subtree(t, id) - u) == u + Subtree(t, id);
    forall k: nat ensures Level(Without(t, u), id, k) <= Level(t, id, k) {
      LevelWithout(t, u, id, k);
    }
  }

  lemma WithoutTwice(t: Tables, a: set<Id>, b: set<Id>)
    ensures Without(Without(t, a), b) == Without(t, a + b)
  {
  }

  lemma LevelWithout(t: Tables, ids: set<Id>, id: Id, k: nat)
    requires DownClosed(t, ids)
    ensures Level(Without(t, ids), id, k) <= Level(t, id, k)
  {
    forall f | f in Level(Without(t, ids), id, k) ensures f in Level(t, id, k) {
      UpWithout(t, ids, f, k);
    }
  }

  lemma DisjointCard(a: set<Id>, b: set<Id>, all: set<Id>)
    requires a !! b && a + b <= all
    ensures |a| + |b| == |a + b| <= |all|
  {
    assert all == (a + b) + (all - (a + b));
  }

  lemma SweepNone(t: Tables)
    ensures Union(t, {}) == {} && Without(t, {}) == t && Enumerates<Id>([], {})
    ensures Elements([]) == {}
  {
  }

  /** A folder that an earlier one took along. */
  lemma SweepSeen(t: Tables, ids: set<Id>, id: Id)
    requires id in Union(t, ids)
    ensures Union(t, ids + {id}) == Union(t, ids)
  {
    hide Subtree, DownClosed;
    UnionDownClosed(t, ids);
    UnionNext(t, ids, id);
    SubtreeInside(t, Union(t, ids), id);
  }

  lemma ElementsPrefix(s: seq<Id>, k: nat)
    requires k < |s|
    ensures Elements(s[..k + 1]) == Elements(s[..k]) + {s[k]} && s[k] in s
    ensures ROOT !in s ==> ROOT !in Elements(s[..k])
  {
    assert s[..k + 1] == s[..k] + [s[k]];
  }

  /** Each folder is paid for once. */
  lemma SweepCard(t: Tables, ids: set<Id>, ids': set<Id>, part: set<Id>)
    requires Union(t, ids) !! part && Union(t, ids) + part == Union(t, ids')
    ensures |Union(t, ids)| + |part| == |Union(t, ids')| <= |t.folders|
  {
    hide Subtree;
    DisjointCard(Union(t, ids), part, t.folders.Keys);
    assert |t.folders| == |t.folders.Keys|;
  }

  /** One stale folder that is still there: its subtree is listed and deleted. */
  method DeleteNext(ghost t: Tables, ghost before: set<Id>, tx: Tables, id: Id, limit: nat, deleted: set<Id>,
                    start: nat, down: nat, ghost log: seq<Id>)
    returns (r: Tx, deleted': set<Id>, n: nat, ghost log': seq<Id>)
    requires Tree(t) && ROOT !in before && id != ROOT && id !in deleted && start <= down
    requires deleted == Union(t, before) && tx == Without(t, deleted) && Enumerates(log, deleted)
    ensures r.Tx? ==> deleted' == Union(t, before + {id}) && r.tables == Without(t, deleted')
    ensures r.Tx? ==> Enumerates(log', deleted')
    ensures r.Tx? ==> n <= down && n + 2 * |deleted| <= start + 1 + 2 * |deleted'|
    ensures r.Broken? ==> r.cause == Statement || r.cause == TooDeep
    ensures r == Broken(Statement) ==> down < start + 1 + 2 * |t.folders| - 2 * |deleted|
    ensures r == Broken(TooDeep) ==> Level(t, id, limit + 1) != {}
  {
    hide Tree, Enumerates, Union, Without, Level, Subtree, ParentsFirst;
    SweepNext(t, before, id);
    SweepCard(t, before, before, {});
    deleted', n, log' := deleted, start, log;
    if n >= down {
      return Broken(Statement), deleted', n, log';
    }
    var subtree := GetFoldersToDelete(tx, id, limit);
    if subtree == None {
      assert Level(tx, id, limit + 1) <= Level(t, id, limit + 1);
      return Broken(TooDeep), deleted', n, log';
    }
    EnumeratesCard(subtree.value, Subtree(tx, id), Subtree(tx, id));
    SweepCard(t, before, before + {id}, Subtree(tx, id));
    ghost var part;
    r, deleted', n, part := DeleteSubtree(tx, id, subtree.value, deleted, n + 1, down);
    if r.Tx? {
      EnumeratesConcat(log, part, deleted, Subtree(tx, id));
      log' := log + part;
    }
  }

  /**
   The loop over the stale folders, for any list of folders below the root, in
   any order, with repetitions, inside each other, or not in the table at all.
   */
  method DeleteSubtrees(t: Tables, stale: seq<Id>, limit: nat, start: nat, down: nat)
    returns (r: Tx, n: nat, ghost log: seq<Id>)
    requires Tree(t) && ROOT !in stale && start <= down
    ensures r.Tx? ==> r.tables == Without(t, Union(t, Elements(stale)))
    ensures r.Tx? ==> Enumerates(log, Union(t, Elements(stale)))
    ensures r.Tx? ==> n <= down && n <= start + |stale| + 2 * |t.folders|
    ensures r.Broken? ==> r.cause == Statement || r.cause == TooDeep
    ensures r == Broken(Statement) ==> down < start + |stale| + 2 * |t.folders|
    ensures r == Broken(TooDeep) ==> exists id :: id in stale && Level(t, id, limit + 1) != {}
  {
    hide *;
    var tx, deleted: set<Id> := t, {};
    n, log := start, [];
    SweepNone(t);
    for k := 0 to |stale|
      invariant n <= down && n <= start + k + 2 * |deleted|
      invariant deleted == Union(t, Elements(stale[..k])) && tx == Without(t, deleted)
      invariant Enumerates(log, deleted)
    {
      ghost var before := Elements(stale[..k]);
      ElementsPrefix(stale, k);
      if stale[k] in deleted {
        SweepSeen(t, before, stale[k]);
        continue;
      }
      r, deleted, n, log := DeleteNext(t, before, tx, stale[k], limit, deleted, n, down, log);
      if r.Broken? {
        return;
      }
      tx := r.tables;
    }
    assert stale[..|stale|] == stale;
    SweepCard(t, Elements(stale), Elements(stale), {});
    r := Tx(tx);
  }

  // ------------------------------------------------------------------ one deletion

  datatype Kind = FileContent | FolderContent | OtherContent

  /** The owner column of the row, if there is a row. */
  function Owner(t: Tables, id: Id, kind: Kind): Option<Option<Text>> {
    if kind == FolderContent then if id in t.folders then Some(t.folders[id].owner) else None
    else if id in t.files then Some(t.files[id].owner) else None
  }

  /** `users` says which accounts exist and which of them is the administrator's. */
  ghost function Authorize(t: Tables, users: map<Text, bool>, user: Text, id: Id, kind: Kind): Response {
    if user == EMPTY then Unauthorized
    else if kind == OtherContent then BadRequest
    else if id == ROOT then Forbidden
    else if user !in users then Failed(NoUser)
    else if Owner(t, id, kind) == None then NotFound
    else if users[user] then Done
    else if Owner(t, id, kind) != Some(Some(user)) then Forbidden
    else if kind == FolderContent && !OwnedBy(t, Subtree(t, id), user) then Forbidden
    else Done
  }

  /** The row, and with a folder every folder and file below it, belongs to the user. */
  ghost predicate Theirs(t: Tables, id: Id, kind: Kind, user: Text) {
    if kind == FolderContent then
      && id in t.folders && (forall f :: f in Subtree(t, id) ==> t.folders[f].owner == Some(user))
      && forall f :: f in t.files && t.files[f].folder in Subtree(t, id) ==> t.files[f].owner == Some(user)
    else id in t.files && t.files[id].owner == Some(user)
  }

  lemma SelfInside(t: Tables, id: Id)
    requires id in t.folders
    ensures id in Subtree(t, id)
  {
    SelfInSubtree(t, id);
  }

  lemma TheirsOwned(t: Tables, id: Id, user: Text)
    requires id in t.folders
    ensures Theirs(t, id, FolderContent, user) <==>
              t.folders[id].owner == Some(user) && OwnedBy(t, Subtree(t, id), user)
  {
    SelfInside(t, id);
    forall f | f in Subtree(t, id) ensures f in t.folders {
      InSubtree(t, id, f);
    }
    hide Subtree;
  }

  lemma InSubtree(t: Tables, g: Id, f: Id)
    requires f in Subtree(t, g)
    ensures f in t.folders
  {
  }

  /** Who may delete, and what the others are told. */
  lemma AuthorizeExact(t: Tables, users: map<Text, bool>, user: Text, id: Id, kind: Kind)
    ensures var resp := Authorize(t, users, user, id, kind);
            var found := if kind == FolderContent then id in t.folders else id in t.files;
            && (resp == Done <==>
                  && user != EMPTY && kind != OtherContent && id != ROOT && user in users && found
                  && (users[user] || Theirs(t, id, kind, user)))
            && (resp == Unauthorized <==> user == EMPTY)
            && (resp == BadRequest <==> user != EMPTY && kind == OtherContent)
            && (resp == Failed(NoUser) <==> user != EMPTY && kind != OtherContent && id != ROOT && user !in users)
            && (resp == NotFound <==>
                  user != EMPTY && kind != OtherContent && id != ROOT && user in users && !found)
            && (resp == Forbidden <==>
                  && user != EMPTY && kind != OtherContent
                  && (id == ROOT || (user in users && found && !users[user] && !Theirs(t, id, kind, user))))
  {
    hide Subtree, OwnedBy;
    if id in t.folders {
      TheirsOwned(t, id, user);
      SelfInside(t, id);
    }
  }

  /** A file goes alone, a folder with everything below it, and nothing else changes. */
  lemma RemovedExact(t: Tables, id: Id, kind: Kind)
    requires Tree(t)
    ensures var t' := Removed(t, id, kind);
            && (forall f :: f in t'.folders <==> f in t.folders && !(kind == FolderContent && f in Subtree(t, id)))
            && (forall f :: f in t'.files <==>
                  f in t.files && !(if kind == FolderContent then t.files[f].folder in Subtree(t, id) else f == id))
            && (forall f :: f in t'.folders ==> t'.folders[f] == t.folders[f])
            && forall f :: f in t'.files ==> t'.files[f] == t.files[f]
  {
    hide Subtree;
  }

  ghost function Removed(t: Tables, id: Id, kind: Kind): Tables {
    if kind == FolderContent then Without(t, Subtree(t, id)) else DeleteFile(t, id)
  }

  /** Every row that `t'` lacks belonged to `user`, and nothing else changed. */
  ghost predicate OnlyOwnRemoved(t: Tables, t': Tables, user: Text) {
    && (forall f :: f in t'.folders ==> f in t.folders && t'.folders[f] == t.folders[f])
    && (forall f :: f in t'.files ==> f in t.files && t'.files[f] == t.files[f])
    && (forall f :: f in t.folders && f !in t'.folders ==> t.folders[f].owner == Some(user))
    && (forall f :: f in t.files && f !in t'.files ==> t.files[f].owner == Some(user))
  }

  /** Only the administrator removes rows of other users or of nobody. */
  lemma DeletionRemovesOwnRows(t: Tables, users: map<Text, bool>, user: Text, id: Id, kind: Kind)
    requires Authorize(t, users, user, id, kind) == Done && !users[user]
    ensures OnlyOwnRemoved(t, Removed(t, id, kind), user)
  {
  }

  lemma RemovedTree(t: Tables, id: Id, kind: Kind)
    requires Tree(t) && id != ROOT
    ensures Tree(Removed(t, id, kind))
  {
    if kind == FolderContent {
      RootNotBelow(t, id);
      SubtreeDownClosed(t, id);
      WithoutTree(t, Subtree(t, id));
    } else {
      var depth: map<Id, nat> :| Ranked(t, depth);
      assert Ranked(DeleteFile(t, id), depth);
    }
  }

  // ----------------------------------------------------------------- stale content

  const WEEK := 7 * 24 * 3600

  /** Whom a cleanup serves: the administrator everything, a user what is theirs. */
  predicate Covers(admin: bool, user: Text, owner: Option<Text>) {
    admin || owner == Some(user)
  }

  function OldFiles(t: Tables, admin: bool, user: Text, now: int): set<Id> {
    set f | f in t.files && t.files[f].added < now - WEEK && Covers(admin, user, t.files[f].owner)
  }

  function OldFolders(t: Tables, admin: bool, user: Text, now: int): set<Id> {
    set f | f in t.folders && t.folders[f].added < now - WEEK && f != ROOT && Covers(admin, user, t.folders[f].owner)
  }

  /** Folders whose subtrees hold nothing of anybody else. */
  ghost function Unmixed(t: Tables, ids: set<Id>, user: Text): set<Id> {
    set f | f in ids && f != ROOT && OwnedBy(t, Subtree(t, f), user)
  }

  lemma ElementsNext(s: seq<Id>, x: Id)
    ensures Elements(s + [x]) == Elements(s) + {x}
  {
  }

  ghost function SafeFolders(t: Tables, admin: bool, user: Text, now: int): set<Id> {
    var stale := OldFolders(t, admin, user, now);
    if admin then stale else Unmixed(t, stale, user)
  }

  /** What a cleanup leaves: the rows outside the stale subtrees that are not stale files. */
  ghost function Swept(t: Tables, admin: bool, user: Text, now: int): Tables {
    var rest := Without(t, Union(t, SafeFolders(t, admin, user, now)));
    rest.(files := rest.files - OldFiles(t, admin, user, now))
  }

  /** Older than seven days, in seconds. */
  predicate Old(added: int, now: int) {
    added + 604800 < now
  }

  /** An old folder below the root that the caller may clean up as a whole. */
  ghost predicate Disposable(t: Tables, f: Id, admin: bool, user: Text, now: int) {
    f in t.folders && f != ROOT && Old(t.folders[f].added, now) && (admin || Theirs(t, f, FolderContent, user))
  }

  /** What a cleanup does, row by row. */
  ghost predicate CleanedUp(t: Tables, t': Tables, admin: bool, user: Text, now: int) {
    && (forall f :: f in t'.folders ==> f in t.folders && t'.folders[f] == t.folders[f])
    && (forall f :: f in t'.files ==> f in t.files && t'.files[f] == t.files[f])
    && (forall f :: f in t.folders ==>
          (f !in t'.folders <==> exists g :: Disposable(t, g, admin, user, now) && f in Subtree(t, g)))
    && (forall f :: f in t.folders && f != ROOT && Old(t.folders[f].added, now) ==>
          (f !in t'.folders <==> admin || Theirs(t, f, FolderContent, user)))
    && forall f :: f in t.files ==>
         (f !in t'.files <==>
            || t.files[f].folder !in t'.folders
            || (Old(t.files[f].added, now) && (admin || t.files[f].owner == Some(user))))
  }

  lemma SafeExact(t: Tables, admin: bool, user: Text, now: int, f: Id)
    ensures f in SafeFolders(t, admin, user, now) <==> Disposable(t, f, admin, user, now)
  {
    hide Subtree, OwnedBy;
    if f in t.folders {
      TheirsOwned(t, f, user);
    }
  }

  /** What is below a folder that is theirs is theirs. */
  lemma TheirsBelow(t: Tables, g: Id, f: Id, user: Text)
    requires Theirs(t, g, FolderContent, user) && f in Subtree(t, g)
    ensures Theirs(t, f, FolderContent, user)
  {
    SubtreeDownClosed(t, g);
    SubtreeInside(t, Subtree(t, g), f);
    hide Subtree;
    InSubtree(t, g, f);
  }

  lemma SweptExact(t: Tables, admin: bool, user: Text, now: int)
    requires Tree(t)
    ensures CleanedUp(t, Swept(t, admin, user, now), admin, user, now)
  {
    hide Subtree, SafeFolders, Theirs, Disposable;
    var t' := Swept(t, admin, user, now);
    forall f | f in t.folders
      ensures f !in t'.folders <==> exists g :: Disposable(t, g, admin, user, now) && f in Subtree(t, g)
    {
      SweptFolder(t, admin, user, now, f);
    }
    forall f | f in t.folders && f != ROOT && Old(t.folders[f].added, now)
      ensures f !in t'.folders <==> admin || Theirs(t, f, FolderContent, user)
    {
      SweptFolder(t, admin, user, now, f);
      SweptOld(t, admin, user, now, f);
    }
  }

  lemma SweptFolder(t: Tables, admin: bool, user: Text, now: int, f: Id)
    requires f in t.folders
    ensures f !in Swept(t, admin, user, now).folders <==>
              exists g :: Disposable(t, g, admin, user, now) && f in Subtree(t, g)
  {
    hide Subtree, SafeFolders, Disposable;
    forall g ensures g in SafeFolders(t, admin, user, now) <==> Disposable(t, g, admin, user, now) {
      SafeExact(t, admin, user, now, g);
    }
  }

  lemma SweptOld(t: Tables, admin: bool, user: Text, now: int, f: Id)
    requires f in t.folders && f != ROOT && Old(t.folders[f].added, now)
    ensures (exists g :: Disposable(t, g, admin, user, now) && f in Subtree(t, g))
            <==> admin || Theirs(t, f, FolderContent, user)
  {
    hide Subtree, Theirs;
    SelfInside(t, f);
    if admin || Theirs(t, f, FolderContent, user) {
      assert Disposable(t, f, admin, user, now);
    }
    if g :| Disposable(t, g, admin, user, now) && f in Subtree(t, g) {
      if !admin {
        TheirsBelow(t, g, f, user);
      }
    }
  }

  lemma SweepRemovesOwnRows(t: Tables, user: Text, now: int)
    ensures OnlyOwnRemoved(t, Swept(t, false, user, now), user)
  {
  }

  lemma SweptTree(t: Tables, admin: bool, user: Text, now: int)
    requires Tree(t)
    ensures Tree(Swept(t, admin, user, now))
  {
    var ids := SafeFolders(t, admin, user, now);
    UnionDownClosed(t, ids);
    UnionNotRoot(t, ids);
    WithoutTree(t, Union(t, ids));
    var rest := Without(t, Union(t, ids));
    var depth: map<Id, nat> :| Ranked(rest, depth);
    assert Ranked(Swept(t, admin, user, now), depth);
  }

  lemma StaleLists(t: Tables, admin: bool, user: Text, now: int, files: seq<Id>, folders: seq<Id>)
    requires Enumerates(files, OldFiles(t, admin, user, now)) && Enumerates(folders, OldFolders(t, admin, user, now))
    ensures Elements(files) == OldFiles(t, admin, user, now) && |files| <= |t.files|
    ensures Elements(folders) == OldFolders(t, admin, user, now) && |folders| <= |t.folders|
  {
    hide Enumerates;
    EnumeratesElements(files, OldFiles(t, admin, user, now));
    EnumeratesElements(folders, OldFolders(t, admin, user, now));
    EnumeratesCard(files, OldFiles(t, admin, user, now), t.files.Keys);
    EnumeratesCard(folders, OldFolders(t, admin, user, now), t.folders.Keys);
    assert |t.files| == |t.files.Keys| && |t.folders| == |t.folders.Keys|;
  }

  lemma SafeList(t: Tables, admin: bool, user: Text, now: int, folders: seq<Id>)
    requires Elements(folders) == SafeFolders(t, admin, user, now)
    ensures ROOT !in folders && forall id :: id in folders ==> id in t.folders
  {
    hide Subtree;
    assert forall f :: f in folders ==> f in Elements(folders);
  }

  class Database {
    var tables: Tables
    var users: map<Text, bool>

    ghost predicate Valid()
      reads this
    {
      Tree(tables)
    }

    constructor (now: int, users: map<Text, bool>)
      ensures Valid() && tables == Seeded(now) && this.users == users
    {
      tables := Seeded(now);
      this.users := users;
      SeededTree(now);
    }

    /** The only way to leave the tree shape is a folder inserted as its own parent. */
    method CreateFolder(id: Id, row: Folder, fault: Fault) returns (ok: bool)
      requires Valid()
      modifies this`tables
      ensures var allowed := id !in old(tables).folders && (row.parent in old(tables).folders || row.parent == id);
              && (ok <==> fault == NoFault && allowed)
              && tables == if fault != Lost && allowed
                           then old(tables).(folders := old(tables).folders[id := row]) else old(tables)
      ensures Valid() <==> tables == old(tables) || row.parent != id
    {
      var r := InsertFolder(tables, id, row);
      ok := fault == NoFault && r.Some?;
      if fault != Lost && r.Some? {
        InsertFolderTree(tables, id, row);
        tables := r.value;
        assert id in tables.folders;
      }
    }

    method CreateFile(id: Id, row: File, fault: Fault) returns (ok: bool)
      requires Valid()
      modifies this`tables
      ensures Valid()
      ensures var allowed := id !in old(tables).files && row.folder in old(tables).folders;
              && (ok <==> fault == NoFault && allowed)
              && tables == if fault != Lost && allowed
                           then old(tables).(files := old(tables).files[id := row]) else old(tables)
    {
      var r := InsertFile(tables, id, row);
      ok := fault == NoFault && r.Some?;
      if fault != Lost && r.Some? {
        InsertFileTree(tables, id, row);
        tables := r.value;
      }
    }

    /** The checks before anything is deleted. `n` counts the statements. */
    method Check(user: Text, id: Id, kind: Kind, down: nat) returns (resp: Response, n: nat)
      ensures resp == Authorize(tables, users, user, id, kind) || resp == Failed(Statement)
      ensures resp == Failed(Statement) ==> down < 3
      ensures n <= 3 && n <= down
    {
      n := 0;
      if user == EMPTY {
        return Unauthorized, n;
      }
      if kind == OtherContent {
        return BadRequest, n;
      }
      if id == ROOT {
        return Forbidden, n;
      }
      if down <= 0 {
        return Failed(Statement), n;
      }
      if user !in users {
        return Failed(NoUser), n;
      }
      if down <= 1 {
        return Failed(Statement), n;
      }
      n := 2;
      var owner := Owner(tables, id, kind);
      if owner == None {
        return NotFound, n;
      }
      if !users[user] {
        if owner.value != Some(user) {
          return Forbidden, n;
        }
        if kind == FolderContent {
          if down <= 2 {
            return Failed(Statement), n;
          }
          n := 3;
          var owned := LibrarySubtreeOwned(tables, id, user);
          if !owned {
            return Forbidden, n;
          }
        }
      }
      resp := Done;
    }

    /** The commit of a transaction; its reply can be lost. */
    method Finish(tx: Tables, commit: Fault) returns (resp: Response)
      modifies this`tables
      ensures resp == if commit == NoFault then Done else Failed(Commit)
      ensures tables == if commit == Lost then old(tables) else tx
    {
      if commit != Lost {
        tables := tx;
      }
      resp := if commit == NoFault then Done else Failed(Commit);
    }

    method DeleteContent(user: Text, id: Id, kind: Kind, limit: nat, down: nat, commit: Fault) returns (resp: Response)
      requires Valid()
      modifies this`tables
      ensures Valid() && resp != Failed(ForeignKey)
      ensures resp == Done ==> Authorize(old(tables), users, user, id, kind) == Done
                               && tables == Removed(old(tables), id, kind)
      ensures resp != Done && resp != Failed(Commit) ==> tables == old(tables)
      ensures resp == Failed(Commit) ==>
                tables == if commit == Lost then old(tables) else Removed(old(tables), id, kind)
      ensures Authorize(old(tables), users, user, id, kind) != Done ==>
                resp == Authorize(old(tables), users, user, id, kind) || resp == Failed(Statement)
      ensures Authorize(old(tables), users, user, id, kind) == Done ==>
                resp in {Done, Failed(Statement), Failed(TooDeep), Failed(Commit)}
      ensures resp == Failed(TooDeep) ==> kind == FolderContent && Level(old(tables), id, limit + 1) != {}
      ensures resp == Failed(Statement) ==> down < 6 + 2 * |old(tables).folders|
      ensures resp == Failed(Commit) ==> commit != NoFault
    {
      var n;
      resp, n := Check(user, id, kind, down);
      if resp != Done {
        return;
      }
      if n >= down {
        return Failed(Statement);
      }
      RemovedTree(tables, id, kind);
      var r := DeleteIn(id, kind, limit, n + 1, down);
      if r.Broken? {
        return Failed(r.cause);
      }
      resp := Finish(r.tables, commit);
    }

    /** The body of the transaction. */
    method DeleteIn(id: Id, kind: Kind, limit: nat, start: nat, down: nat) returns (r: Tx)
      requires Valid() && id != ROOT && kind != OtherContent && start <= down
      ensures r.Tx? ==> r.tables == Removed(tables, id, kind)
      ensures r.Broken? ==> r.cause == Statement || r.cause == TooDeep
      ensures r == Broken(TooDeep) ==> kind == FolderContent && Level(tables, id, limit + 1) != {}
      ensures r == Broken(Statement) ==> down < start + 1 + 2 * |tables.folders|
    {
      if start >= down {
        return Broken(Statement);
      }
      if kind == FileContent {
        return Tx(DeleteFile(tables, id));
      }
      var ids := GetFoldersToDelete(tables, id, limit);
      if ids == None {
        return Broken(TooDeep);
      }
      EnumeratesCard(ids.value, Subtree(tables, id), tables.folders.Keys);
      hide Enumerates, ParentsFirst, Level;
      var deleted, n;
      ghost var log;
      r, deleted, n, log := DeleteSubtree(tables, id, ids.value, {}, start + 1, down);
    }

    /** The folders of a user that hold nothing of anybody else. */
    method KeepSafe(folders: seq<Id>, user: Text, start: nat, down: nat) returns (safe: Option<seq<Id>>, n: nat)
      requires start <= down
      ensures if start + |folders| <= down then safe.Some? && n == start + |folders| else safe == None
      ensures safe.Some? ==> Elements(safe.value) == Unmixed(tables, Elements(folders), user)
      ensures safe.Some? ==> |safe.value| <= |folders|
    {
      hide OwnedBy, Subtree;
      var kept := [];
      n := start;
      for k := 0 to |folders|
        invariant n == start + k <= down && |kept| <= k
        invariant Elements(kept) == Unmixed(tables, Elements(folders[..k]), user)
      {
        if n >= down {
          return None, n;
        }
        var owned := LibrarySubtreeOwned(tables, folders[k], user);
        n := n + 1;
        ElementsNext(folders[..k], folders[k]);
        ElementsNext(kept, folders[k]);
        assert folders[..k + 1] == folders[..k] + [folders[k]];
        if owned && folders[k] != ROOT {
          kept := kept + [folders[k]];
        }
      }
      assert folders[..|folders|] == folders;
      safe := Some(kept);
    }

    /** Stale files that no stale folder took along, one by one. */
    static method DeleteFiles(t: Tables, ids: seq<Id>, start: nat, down: nat) returns (r: Tx, n: nat)
      requires start <= down
      ensures r == if start + |ids| <= down then Tx(t.(files := t.files - Elements(ids))) else Broken(Statement)
    {
      var tx := t;
      n := start;
      for k := 0 to |ids|
        invariant n == start + k <= down
        invariant tx == t.(files := t.files - Elements(ids[..k]))
      {
        if n >= down {
          return Broken(Statement), n;
        }
        assert ids[..k + 1] == ids[..k] + [ids[k]];
        tx, n := DeleteFile(tx, ids[k]), n + 1;
      }
      assert ids[..|ids|] == ids;
      r := Tx(tx);
    }

    /** `log` records the folders deleted, in order. */
    method DeleteStale(user: Text, now: int, limit: nat, down: nat, commit: Fault)
      returns (resp: Response, ghost log: seq<Id>)
      requires Valid()
      modifies this`tables
      ensures Valid() && resp != Failed(ForeignKey)
      ensures user == EMPTY ==> resp == Unauthorized
      ensures resp == Done ==>
                && user != EMPTY && user in users
                && tables == Swept(old(tables), users[user], user, now)
                && Enumerates(log, Union(old(tables), SafeFolders(old(tables), users[user], user, now)))
                && CleanedUp(old(tables), tables, users[user], user, now)
      ensures resp != Done && resp != Failed(Commit) ==> tables == old(tables)
      ensures resp == Failed(Commit) ==>
                && user in users && commit != NoFault
                && tables == if commit == Lost then old(tables) else Swept(old(tables), users[user], user, now)
      ensures user != EMPTY ==>
                resp in {Done, Failed(NoUser), Failed(Statement), Failed(TooDeep), Failed(Commit)}
      ensures resp == Failed(NoUser) ==> user !in users
      ensures resp == Failed(TooDeep) ==> exists id :: id in old(tables).folders && id != ROOT
                                                       && Level(old(tables), id, limit + 1) != {}
      ensures resp == Failed(Statement) ==> down < 4 + 4 * |old(tables).folders| + |old(tables).files|
    {
      hide Enumerates, Tree, OwnedBy, Union, Without, Subtree, Level, OldFiles, OldFolders, Elements, Unmixed;
      hide CleanedUp;
      log := [];
      if user == EMPTY {
        return Unauthorized, log;
      }
      if down <= 0 {
        return Failed(Statement), log;
      }
      if user !in users {
        return Failed(NoUser), log;
      }
      if down <= 2 {
        return Failed(Statement), log;
      }
      var admin := users[user];
      var files := Listed(OldFiles(tables, admin, user, now));
      var folders := Listed(OldFolders(tables, admin, user, now));
      var n := 3;
      SweptTree(tables, admin, user, now);
      SweptExact(tables, admin, user, now);
      StaleLists(tables, admin, user, now, files, folders);
      if !admin {
        var safe;
        safe, n := KeepSafe(folders, user, n, down);
        if safe == None {
          return Failed(Statement), log;
        }
        folders := safe.value;
      }
      assert Elements(folders) == SafeFolders(tables, admin, user, now);
      if n >= down {
        return Failed(Statement), log;
      }
      SafeList(tables, admin, user, now, folders);
      var r;
      r, n, log := DeleteSubtrees(tables, folders, limit, n + 1, down);
      if r.Broken? {
        return Failed(r.cause), log;
      }
      r, n := DeleteFiles(r.tables, files, n, down);
      if r.Broken? {
        return Failed(r.cause), log;
      }
      resp := Finish(r.tables, commit);
    }
  }
}
