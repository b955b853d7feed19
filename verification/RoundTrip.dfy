/**
 An upload and the deletion of its root folder undo each other, and the user who
 uploaded is allowed to delete.
 */
module RoundTrip {
  import opened Folders
  import opened Library
  import opened Paths
  import opened Wrappers
  import UT = UploadTree
  import U = Upload

  /** What `Upload.SendDirectory` leaves behind when it succeeds with an honest remote service. */
  ghost predicate Mirrored(job: U.Job, kids: UT.Kids, t0: Tables, t: Tables, ids: map<string, Text>,
                           fids: map<string, Text>) {
    var es := UT.Walk(UT.Directory(kids), job.path, Base(job.path));
    && UT.IsRoot(job.path) && UT.WellFormedKids(kids) && Tree(t0)
    && U.FoldersMirror(job, t0, t, es, ids) && U.FilesMirror(job, t0, t, es, ids, fids)
  }

  /** The walk starts with the root folder, and every later directory has its parent in the map. */
  lemma {:induction false} BelowRoot(job: U.Job, t0: Tables, t: Tables, es: seq<UT.Entry>, ids: map<string, Text>,
                                     i: nat)
    requires U.FoldersMirror(job, t0, t, es, ids) && job.path in ids
    requires es != [] && es[0].path == job.path && es[0].node.Directory? && UT.DirsFirst(es[1..], job.path)
    requires i < |es| && es[i].node.Directory?
    ensures es[i].path in ids && Given(ids[es[i].path]) in Subtree(t, Given(ids[job.path]))
  {
    hide U.FoldersMirror, Subtree, Dir, Level;
    var root := Given(ids[job.path]);
    DirectoryRow(job, t0, t, es, ids, es[0]);
    DirectoryRow(job, t0, t, es, ids, es[i]);
    SelfInSubtree(t, root);
    SubtreeClosed(t, root);
    if es[i].path != job.path {
      assert es[1..][i - 1] == es[i];
      var d := Dir(es[i].path);
      if d != job.path {
        var k :| 0 <= k < i - 1 && es[1..][k].path == d && es[1..][k].node.Directory?;
        BelowRoot(job, t0, t, es, ids, k + 1);
      }
    }
  }

  lemma DirectoryRow(job: U.Job, t0: Tables, t: Tables, es: seq<UT.Entry>, ids: map<string, Text>, e: UT.Entry)
    requires U.FoldersMirror(job, t0, t, es, ids) && e in es
    ensures e.node.Directory? ==>
              && e.path in ids && Given(ids[e.path]) in t.folders
              && (e.path != job.path ==>
                    Dir(e.path) in ids && t.folders[Given(ids[e.path])].parent == Given(ids[Dir(e.path)]))
  {
  }

  /** Nothing that was there before hangs below the new root folder. */
  lemma {:induction false} OldStaysOutside(t0: Tables, t: Tables, f: Id, k: nat)
    requires Tree(t0) && f in t0.folders
    requires forall g :: g in t0.folders ==> g in t.folders && t.folders[g] == t0.folders[g]
    ensures Up(t, f, k) in t0.folders
    decreases k
  {
    if k > 0 {
      OldStaysOutside(t0, t, t0.folders[f].parent, k - 1);
    }
  }

  lemma NewAreBelow(job: U.Job, t0: Tables, t: Tables, es: seq<UT.Entry>, ids: map<string, Text>)
    requires U.FoldersMirror(job, t0, t, es, ids) && job.path in ids
    requires es != [] && es[0].path == job.path && es[0].node.Directory? && UT.DirsFirst(es[1..], job.path)
    ensures U.Given(ids) <= Subtree(t, Given(ids[job.path]))
  {
    hide Subtree;
    forall f | f in U.Given(ids) ensures f in Subtree(t, Given(ids[job.path])) {
      var p :| p in ids && Given(ids[p]) == f;
      var e :| e in es && e.path == p && e.node.Directory?;
      var i :| 0 <= i < |es| && es[i] == e;
      BelowRoot(job, t0, t, es, ids, i);
    }
  }

  lemma OnlyNewAreBelow(job: U.Job, t0: Tables, t: Tables, es: seq<UT.Entry>, ids: map<string, Text>)
    requires U.FoldersMirror(job, t0, t, es, ids) && job.path in ids && Tree(t0)
    ensures Subtree(t, Given(ids[job.path])) <= U.Given(ids)
  {
    var root := Given(ids[job.path]);
    forall f | f in Subtree(t, root) ensures f in U.Given(ids) {
      var k :| f in Level(t, root, k);
      if f in t0.folders {
        OldStaysOutside(t0, t, f, k);
      }
    }
  }

  lemma SubtreeOfUpload(job: U.Job, kids: UT.Kids, t0: Tables, t: Tables, ids: map<string, Text>,
                        fids: map<string, Text>)
    requires Mirrored(job, kids, t0, t, ids, fids)
    ensures job.path in ids && Subtree(t, Given(ids[job.path])) == U.Given(ids)
  {
    hide U.FoldersMirror, U.FilesMirror, Subtree, Tree, UT.DirsFirst, UT.DistinctPaths, U.Given;
    var es := UT.Walk(UT.Directory(kids), job.path, Base(job.path));
    UT.WalkFacts(kids, job.path, Base(job.path));
    DirectoryRow(job, t0, t, es, ids, es[0]);
    NewAreBelow(job, t0, t, es, ids);
    OnlyNewAreBelow(job, t0, t, es, ids);
  }

  lemma FoldersOfUpload(job: U.Job, t0: Tables, t: Tables, es: seq<UT.Entry>, ids: map<string, Text>)
    requires U.FoldersMirror(job, t0, t, es, ids)
    ensures t.folders - U.Given(ids) == t0.folders && U.Given(ids) !! t0.folders.Keys
    ensures forall f :: f in U.Given(ids) ==> f in t.folders && t.folders[f].owner == job.user
  {
    forall f | f in U.Given(ids) ensures f in t.folders && t.folders[f].owner == job.user {
      var p :| p in ids && Given(ids[p]) == f;
      var e :| e in es && e.path == p && e.node.Directory?;
    }
  }

  lemma FilesOfUpload(job: U.Job, t0: Tables, t: Tables, es: seq<UT.Entry>, ids: map<string, Text>,
                      fids: map<string, Text>)
    requires U.FilesMirror(job, t0, t, es, ids, fids) && Tree(t0)
    ensures forall f :: f in t0.files ==> f in t.files && t.files[f] == t0.files[f] && t.files[f].folder in t0.folders
    ensures forall f :: f in t.files && f !in t0.files ==>
              t.files[f].folder in U.Given(ids) && t.files[f].owner == job.user
  {
    forall f | f in t.files && f !in t0.files
      ensures t.files[f].folder in U.Given(ids) && t.files[f].owner == job.user
    {
      var p :| p in fids && Given(fids[p]) == f;
      var e :| e in es && e.path == p && e.node.File?;
    }
  }

  /** Deleting the root folder of an upload restores the tables. */
  lemma DeleteUndoesUpload(job: U.Job, kids: UT.Kids, t0: Tables, t: Tables, ids: map<string, Text>,
                           fids: map<string, Text>)
    requires Mirrored(job, kids, t0, t, ids, fids)
    ensures job.path in ids && Removed(t, Given(ids[job.path]), FolderContent) == t0
  {
    hide U.FoldersMirror, U.FilesMirror, Subtree, Tree, U.Given;
    var es := UT.Walk(UT.Directory(kids), job.path, Base(job.path));
    SubtreeOfUpload(job, kids, t0, t, ids, fids);
    FoldersOfUpload(job, t0, t, es, ids);
    FilesOfUpload(job, t0, t, es, ids, fids);
    assert Without(t, U.Given(ids)).files == t0.files;
  }

  /** The uploader, administrator or not, may do so. */
  lemma UploaderMayDelete(job: U.Job, kids: UT.Kids, t0: Tables, t: Tables, ids: map<string, Text>,
                          fids: map<string, Text>, users: map<Text, bool>, user: Text)
    requires Mirrored(job, kids, t0, t, ids, fids) && job.user == Some(user) && user != EMPTY && user in users
    ensures job.path in ids && Authorize(t, users, user, Given(ids[job.path]), FolderContent) == Done
  {
    hide U.FoldersMirror, U.FilesMirror, Subtree, Tree, U.Given;
    var es := UT.Walk(UT.Directory(kids), job.path, Base(job.path));
    SubtreeOfUpload(job, kids, t0, t, ids, fids);
    FoldersOfUpload(job, t0, t, es, ids);
    FilesOfUpload(job, t0, t, es, ids, fids);
    RootInGiven(ids, job.path);
  }

  lemma RootInGiven(ids: map<string, Text>, p: string)
    requires p in ids
    ensures Given(ids[p]) in U.Given(ids)
  {
  }
}
