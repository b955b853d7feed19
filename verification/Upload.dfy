/**
 The upload of a finished download: the local tree is walked twice, once for the
 directory sizes and once to mirror it into the remote store and the library
 tables. What the remote service answers, entry by entry, is a parameter.
 */
module Upload {
  import F = Folders
  import L = Library
  import opened Paths
  import opened UploadTree
  import opened Wrappers

  /** `path` is the local tree, `remoteRoot` the remote folder that receives it, `hash` the job ID. */
  datatype Job = Job(path: string, remoteRoot: Text, hash: Text, user: Option<Text>, now: int)

  datatype FileData = FileData(id: Text, name: string, size: int, parent: Text, hasServer: bool)

  /** The environment of one entry. `answer` is the remote reply to a file upload. */
  datatype Reply = Reply(
    inspected: bool,
    parentChecked: bool,
    folderID: Option<Text>,
    answer: (Text, string, int) -> Option<FileData>,
    progress: seq<int>,
    fault: Fault)

  /** The remote service files things where it was told to, under their names and sizes. */
  ghost predicate Honest(job: Job, reply: Reply) {
    && reply.folderID != Some(job.remoteRoot)
    && forall parent, name, size :: reply.answer(parent, name, size).Some? ==>
         var d := reply.answer(parent, name, size).value;
         d.parent == parent && d.name == name && d.size == size
  }

  // --------------------------------------------------------------- one folder, one file

  function NewFolderOp(t: L.Tables, job: Job, name: string, parent: Text, hash: Text, size: int, reply: Reply)
    : (L.Tables, Option<Text>)
  {
    if parent != EMPTY && hash == EMPTY && (!reply.parentChecked || L.Given(parent) !in t.folders) then (t, None)
    else if reply.folderID == None then (t, None)
    else
      var at := if parent == job.remoteRoot && hash != EMPTY then L.ROOT else L.Given(parent);
      var row := L.Folder(at, job.user, job.now, name, if hash == EMPTY then None else Some(hash), size);
      var r := L.InsertFolder(t, L.Given(reply.folderID.value), row);
      if r == None || reply.fault == Lost then (t, None)
      else (r.value, if reply.fault == NoFault then reply.folderID else None)
  }

  method NewFolder(db: F.Database, job: Job, name: string, parent: Text, hash: Text, size: int, reply: Reply)
    returns (id: Option<Text>)
    requires db.Valid()
    modifies db`tables
    ensures (db.tables, id) == NewFolderOp(old(db.tables), job, name, parent, hash, size, reply)
    ensures (parent == job.remoteRoot && hash != EMPTY) || L.Given(parent) in old(db.tables).folders ==> db.Valid()
  {
    // A folder with a hash is the root of an upload; only the others need a parent in the table.
    if parent != EMPTY && hash == EMPTY {
      if !reply.parentChecked || L.Given(parent) !in db.tables.folders {
        return None;
      }
    }
    if reply.folderID == None {
      return None;
    }
    var at := L.Given(parent);
    if parent == job.remoteRoot && hash != EMPTY {
      at := L.ROOT;
    }
    var row := L.Folder(at, job.user, job.now, name, if hash == EMPTY then None else Some(hash), size);
    var ok := db.CreateFolder(L.Given(reply.folderID.value), row, reply.fault);
    id := if ok then reply.folderID else None;
  }

  function NewFileOp(t: L.Tables, job: Job, name: string, size: int, parent: Text, reply: Reply): (L.Tables, bool) {
    var data := reply.answer(parent, name, size);
    if data == None || !data.value.hasServer then (t, false)
    else
      var at := if data.value.parent == job.remoteRoot then L.ROOT else L.Given(data.value.parent);
      var row := L.File(at, job.user, job.now, data.value.name, data.value.size);
      var r := L.InsertFile(t, L.Given(data.value.id), row);
      if r == None || reply.fault == Lost then (t, false) else (r.value, reply.fault == NoFault)
  }

  method NewFile(db: F.Database, job: Job, name: string, size: int, parent: Text, reply: Reply) returns (ok: bool)
    requires db.Valid()
    modifies db`tables
    ensures db.Valid()
    ensures (db.tables, ok) == NewFileOp(old(db.tables), job, name, size, parent, reply)
  {
    var data := reply.answer(parent, name, size);
    if data == None || !data.value.hasServer {
      return false;
    }
    var at := L.Given(data.value.parent);
    if data.value.parent == job.remoteRoot {
      at := L.ROOT;
    }
    var row := L.File(at, job.user, job.now, data.value.name, data.value.size);
    ok := db.CreateFile(L.Given(data.value.id), row, reply.fault);
  }

  /** A folder is recorded under the reported ID, and the statement says so unless its reply is lost. */
  lemma NewFolderExact(t: L.Tables, job: Job, name: string, parent: Text, hash: Text, size: int, reply: Reply)
    ensures var (t', id) := NewFolderOp(t, job, name, parent, hash, size, reply);
            var root := hash != EMPTY && parent == job.remoteRoot;
            var known := parent == EMPTY || hash != EMPTY || (reply.parentChecked && L.Given(parent) in t.folders);
            var at := if root then L.ROOT else L.Given(parent);
            var allowed := known && reply.folderID.Some? && L.Given(reply.folderID.value) !in t.folders
                           && (at in t.folders || at == L.Given(reply.folderID.value));
            && (id == if allowed && reply.fault == NoFault then reply.folderID else None)
            && (if allowed && reply.fault != Lost then
                  && t'.files == t.files && t'.folders.Keys == t.folders.Keys + {L.Given(reply.folderID.value)}
                  && (forall f :: f in t.folders ==> t'.folders[f] == t.folders[f])
                  && var row := t'.folders[L.Given(reply.folderID.value)];
                     && row.parent == at && row.owner == job.user && row.added == job.now && row.name == name
                     && row.size == size && (row.hash == None <==> hash == EMPTY)
                     && (hash != EMPTY ==> row.hash == Some(hash))
                else t' == t)
  {
  }

  /** A file is recorded as the remote service reports it. */
  lemma NewFileExact(t: L.Tables, job: Job, name: string, size: int, parent: Text, reply: Reply)
    ensures var (t', ok) := NewFileOp(t, job, name, size, parent, reply);
            var data := reply.answer(parent, name, size);
            var at := if data.Some? && data.value.parent != job.remoteRoot then L.Given(data.value.parent) else L.ROOT;
            var allowed := data.Some? && data.value.hasServer && L.Given(data.value.id) !in t.files && at in t.folders;
            && (ok <==> allowed && reply.fault == NoFault)
            && (if allowed && reply.fault != Lost then
                  && t'.folders == t.folders && t'.files.Keys == t.files.Keys + {L.Given(data.value.id)}
                  && (forall f :: f in t.files ==> t'.files[f] == t.files[f])
                  && var row := t'.files[L.Given(data.value.id)];
                     && row.folder == at && row.owner == job.user && row.added == job.now
                     && row.name == data.value.name && row.size == data.value.size
                else t' == t)
  {
  }

  // ------------------------------------------------------------------------- the mirror

  function FolderRow(job: Job, e: Entry, ids: map<string, Text>): L.Folder
    requires e.path == job.path || Dir(e.path) in ids
  {
    if e.path == job.path then L.Folder(L.ROOT, job.user, job.now, e.name, Some(job.hash), Size(e.node))
    else L.Folder(L.Given(ids[Dir(e.path)]), job.user, job.now, e.name, None, Size(e.node))
  }

  function FileRow(job: Job, e: Entry, ids: map<string, Text>): L.File
    requires Dir(e.path) in ids
  {
    L.File(L.Given(ids[Dir(e.path)]), job.user, job.now, e.name, Size(e.node))
  }

  /** `ids` numbers the given paths, each with an ID of its own that `used` does not have. */
  ghost predicate Numbers(ids: map<string, Text>, es: seq<Entry>, dirs: bool, used: set<L.Id>) {
    && (forall e :: e in es && e.node.Directory? == dirs ==> e.path in ids)
    && (forall p :: p in ids ==> exists e :: e in es && e.path == p && e.node.Directory? == dirs)
    && (forall p, q :: p in ids && q in ids && p != q ==> ids[p] != ids[q])
    && (forall p :: p in ids ==> L.Given(ids[p]) !in used)
  }

  ghost function Given(ids: map<string, Text>): set<L.Id> {
    set p | p in ids :: L.Given(ids[p])
  }

  /** Every directory has its row, under the row of the directory it is in, with its name and size. */
  ghost predicate FolderRows(job: Job, t: L.Tables, es: seq<Entry>, ids: map<string, Text>) {
    forall e :: e in es && e.node.Directory? ==>
      && e.path in ids && (e.path == job.path || Dir(e.path) in ids) && L.Given(ids[e.path]) in t.folders
      && t.folders[L.Given(ids[e.path])] == FolderRow(job, e, ids)
  }

  ghost predicate FileRows(job: Job, t: L.Tables, es: seq<Entry>, ids: map<string, Text>, fids: map<string, Text>) {
    forall e :: e in es && e.node.File? ==>
      && e.path in fids && Dir(e.path) in ids && L.Given(fids[e.path]) in t.files
      && t.files[L.Given(fids[e.path])] == FileRow(job, e, ids)
  }

  /** The new folder rows are the directories of the walk, one row for each. */
  ghost predicate FoldersMirror(job: Job, t0: L.Tables, t: L.Tables, es: seq<Entry>, ids: map<string, Text>) {
    && Numbers(ids, es, true, t0.folders.Keys)
    && t.folders.Keys == t0.folders.Keys + Given(ids)
    && (forall f :: f in t0.folders ==> t.folders[f] == t0.folders[f])
    && FolderRows(job, t, es, ids)
  }

  /** The new file rows are the files of the walk. */
  ghost predicate FilesMirror(job: Job, t0: L.Tables, t: L.Tables, es: seq<Entry>, ids: map<string, Text>,
                              fids: map<string, Text>) {
    && Numbers(fids, es, false, t0.files.Keys)
    && t.files.Keys == t0.files.Keys + Given(fids)
    && (forall f :: f in t0.files ==> t.files[f] == t0.files[f])
    && FileRows(job, t, es, ids, fids)
  }

  /** What the new rows say, column by column. */
  lemma MirroredRows(job: Job, t0: L.Tables, t: L.Tables, es: seq<Entry>, ids: map<string, Text>,
                     fids: map<string, Text>)
    requires FoldersMirror(job, t0, t, es, ids) && FilesMirror(job, t0, t, es, ids, fids)
    ensures forall e :: e in es && e.node.Directory? ==>
              && e.path in ids && L.Given(ids[e.path]) in t.folders
              && var row := t.folders[L.Given(ids[e.path])];
                 && row.name == e.name && row.size == Size(e.node) && row.owner == job.user && row.added == job.now
                 && (e.path == job.path ==> row.parent == L.ROOT && row.hash == Some(job.hash))
                 && (e.path != job.path ==>
                       Dir(e.path) in ids && row.parent == L.Given(ids[Dir(e.path)]) && row.hash == None)
    ensures forall e :: e in es && e.node.File? ==>
              && e.path in fids && L.Given(fids[e.path]) in t.files && Dir(e.path) in ids
              && var row := t.files[L.Given(fids[e.path])];
                 && row.name == e.name && row.size == e.node.size && row.owner == job.user && row.added == job.now
                 && row.folder == L.Given(ids[Dir(e.path)])
  {
    hide Numbers, Dir, Given;
  }

  lemma NumbersNext(ids: map<string, Text>, es: seq<Entry>, dirs: bool, used: set<L.Id>, e: Entry, id: Text)
    requires Numbers(ids, es, dirs, used) && e.path !in ids && e.node.Directory? == dirs
    requires L.Given(id) !in used && L.Given(id) !in Given(ids)
    ensures Numbers(ids[e.path := id], es + [e], dirs, used)
    ensures Given(ids[e.path := id]) == Given(ids) + {L.Given(id)}
  {
  }

  lemma NumbersSkip(ids: map<string, Text>, es: seq<Entry>, dirs: bool, used: set<L.Id>, e: Entry)
    requires Numbers(ids, es, dirs, used) && e.node.Directory? != dirs
    ensures Numbers(ids, es + [e], dirs, used)
  {
  }

  /** Rows refer to directories that were visited before. */
  lemma RowsKept(job: Job, f: Entry, ids: map<string, Text>, p: string, id: Text)
    requires p !in ids && (f.path == job.path || Dir(f.path) in ids)
    ensures FolderRow(job, f, ids[p := id]) == FolderRow(job, f, ids)
    ensures Dir(f.path) in ids ==> FileRow(job, f, ids[p := id]) == FileRow(job, f, ids)
  {
  }

  lemma FolderRowsNext(job: Job, t: L.Tables, es: seq<Entry>, ids: map<string, Text>, e: Entry, id: Text)
    requires FolderRows(job, t, es, ids) && e.path !in ids && L.Given(id) !in t.folders
    requires e.path == job.path || Dir(e.path) in ids
    ensures FolderRows(job, t.(folders := t.folders[L.Given(id) := FolderRow(job, e, ids)]), es + [e],
      ids[e.path := id])
  {
  }

  lemma FolderMirrored(job: Job, t0: L.Tables, t: L.Tables, es: seq<Entry>, ids: map<string, Text>, e: Entry, id: Text)
    requires FoldersMirror(job, t0, t, es, ids) && e.node.Directory? && e.path !in ids
    requires e.path == job.path || Dir(e.path) in ids
    requires L.Given(id) !in t.folders
    ensures FoldersMirror(job, t0, t.(folders := t.folders[L.Given(id) := FolderRow(job, e, ids)]), es + [e],
                          ids[e.path := id])
  {
    hide Numbers, FolderRows, Dir, FolderRow, Given;
    NumbersNext(ids, es, true, t0.folders.Keys, e, id);
    FolderRowsNext(job, t, es, ids, e, id);
  }

  lemma FileRowsNext(job: Job, t: L.Tables, es: seq<Entry>, ids: map<string, Text>, fids: map<string, Text>,
                     e: Entry, id: Text)
    requires FileRows(job, t, es, ids, fids) && e.path !in fids && L.Given(id) !in t.files && Dir(e.path) in ids
    ensures FileRows(job, t.(files := t.files[L.Given(id) := FileRow(job, e, ids)]), es + [e], ids, fids[e.path := id])
  {
    hide FileRow, Dir, LastSlash;
  }

  lemma FileMirrored(job: Job, t0: L.Tables, t: L.Tables, es: seq<Entry>, ids: map<string, Text>,
                     fids: map<string, Text>, e: Entry, id: Text)
    requires FilesMirror(job, t0, t, es, ids, fids) && e.node.File? && e.path !in fids
    requires Dir(e.path) in ids && L.Given(id) !in t.files
    ensures FilesMirror(job, t0, t.(files := t.files[L.Given(id) := FileRow(job, e, ids)]), es + [e],
                        ids, fids[e.path := id])
  {
    hide Numbers, Dir, LastSlash, FileRow, FileRows, Given;
    NumbersNext(fids, es, false, t0.files.Keys, e, id);
    FileRowsNext(job, t, es, ids, fids, e, id);
  }

  // -------------------------------------------------------------------------- the walk

  datatype Outcome = Uploaded | LocalFailed | NoParent | FolderFailed | FileFailed

  ghost predicate AllHonest(job: Job, es: seq<Entry>, replies: nat -> Reply) {
    forall k: nat :: k < |es| ==> Honest(job, replies(k))
  }

  lemma HonestAt(job: Job, es: seq<Entry>, replies: nat -> Reply, k: nat)
    requires k < |es|
    ensures AllHonest(job, es, replies) ==> Honest(job, replies(k))
  {
  }

  predicate AllSteady(es: seq<Entry>, replies: nat -> Reply) {
    forall k: nat :: k < |es| && es[k].node.File? ==> Steady(replies(k).progress, 0, es[k].node.size)
  }

  ghost predicate Extends(t0: L.Tables, t: L.Tables) {
    && (forall f :: f in t0.folders ==> f in t.folders && t.folders[f] == t0.folders[f])
    && (forall f :: f in t0.files ==> f in t.files && t.files[f] == t0.files[f])
  }

  /** The byte counts a file reports never fall and never pass its size. */
  predicate Steady(progress: seq<int>, low: int, high: int) {
    && (forall i :: 0 <= i < |progress| ==> low <= progress[i] <= high)
    && forall i, k :: 0 <= i < k < |progress| ==> progress[i] <= progress[k]
  }

  lemma SteadyNone()
    ensures forall high: nat :: Steady([], 0, high)
  {
  }

  function Shifted(progress: seq<int>, bytes: int): (r: seq<int>)
    ensures |r| == |progress| && forall i :: 0 <= i < |r| ==> r[i] == bytes + progress[i]
  {
    seq(|progress|, i requires 0 <= i < |progress| => bytes + progress[i])
  }

  /** The folder IDs answered to the first `k` entries. */
  ghost function FolderIDs(es: seq<Entry>, replies: nat -> Reply, k: nat): map<string, Text>
    requires k <= |es|
  {
    if k == 0 then map[]
    else
      var before := FolderIDs(es, replies, k - 1);
      if es[k - 1].node.Directory? && replies(k - 1).folderID.Some?
      then before[es[k - 1].path := replies(k - 1).folderID.value] else before
  }

  /** The file IDs answered to them. */
  ghost function FileIDs(es: seq<Entry>, replies: nat -> Reply, k: nat): map<string, Text>
    requires k <= |es|
  {
    if k == 0 then map[]
    else
      var e, ids := es[k - 1], FolderIDs(es, replies, k - 1);
      var before := FileIDs(es, replies, k - 1);
      if e.node.File? && Dir(e.path) in ids && replies(k - 1).answer(ids[Dir(e.path)], e.name, e.node.size).Some?
      then before[e.path := replies(k - 1).answer(ids[Dir(e.path)], e.name, e.node.size).value.id] else before
  }

  /** The remote side and the database take a folder: its ID is new. */
  ghost predicate TakesFolder(t0: L.Tables, ids: map<string, Text>, parent: Text, hash: Text, reply: Reply) {
    && reply.fault == NoFault && (parent == EMPTY || hash != EMPTY || reply.parentChecked)
    && reply.folderID.Some? && L.Given(reply.folderID.value) !in t0.folders.Keys + Given(ids)
  }

  ghost predicate TakesFile(t0: L.Tables, fids: map<string, Text>, e: Entry, parent: Text, reply: Reply) {
    var data := reply.answer(parent, e.name, Size(e.node));
    && reply.fault == NoFault && data.Some? && data.value.hasServer
    && L.Given(data.value.id) !in t0.files.Keys + Given(fids)
  }

  ghost predicate TakesRoot(job: Job, t0: L.Tables, replies: nat -> Reply) {
    TakesFolder(t0, map[], job.remoteRoot, job.hash, replies(0))
  }

  /** Entry `k` gets what it asks for, given the answers to the entries before it. */
  ghost predicate Served(job: Job, t0: L.Tables, es: seq<Entry>, replies: nat -> Reply, k: nat)
    requires k < |es|
  {
    var ids := FolderIDs(es, replies, k);
    && replies(k).inspected
    && if k == 0 then TakesRoot(job, t0, replies)
       else
         && Dir(es[k].path) in ids
         && if es[k].node.Directory? then TakesFolder(t0, ids, ids[Dir(es[k].path)], EMPTY, replies(k))
            else TakesFile(t0, FileIDs(es, replies, k), es[k], ids[Dir(es[k].path)], replies(k))
  }

  lemma MirrorStart(job: Job, t0: L.Tables)
    ensures Progressing(job, t0, t0, [], map[], map[], true) && Progressing(job, t0, t0, [], map[], map[], false)
    ensures Extends(t0, t0)
  {
    assert Given(map[]) == {};
  }

  lemma NotYet(es: seq<Entry>, k: int, ids: map<string, Text>, dirs: bool, used: set<L.Id>)
    requires DistinctPaths(es) && 0 <= k < |es| && Numbers(ids, es[..k], dirs, used)
    ensures es[k].path !in ids
  {
    assert forall e :: e in es[..k] ==> e.path != es[k].path;
  }

  /** The walk visits a directory before what is in it. */
  lemma ParentKnown(es: seq<Entry>, k: int, r: string, ids: map<string, Text>, used: set<L.Id>)
    requires 1 <= k < |es| && DirsFirst(es[1..], r) && es[0].path == r && es[0].node.Directory?
    requires Numbers(ids, es[..k], true, used)
    ensures Dir(es[k].path) in ids && es[k].path == Join(Dir(es[k].path), es[k].name)
  {
  }

  /** A file leaves the folders as they are. */
  lemma FolderMirrorSkip(job: Job, t0: L.Tables, t: L.Tables, t': L.Tables, es: seq<Entry>, ids: map<string, Text>,
                         e: Entry)
    requires FoldersMirror(job, t0, t, es, ids) && t'.folders == t.folders && e.node.File?
    ensures FoldersMirror(job, t0, t', es + [e], ids)
  {
    NumbersSkip(ids, es, true, t0.folders.Keys, e);
  }

  lemma FileMirrorSkip(job: Job, t0: L.Tables, t: L.Tables, t': L.Tables, es: seq<Entry>, ids: map<string, Text>,
                       fids: map<string, Text>, e: Entry, id: Text)
    requires FilesMirror(job, t0, t, es, ids, fids) && t'.files == t.files && e.node.Directory? && e.path !in ids
    ensures FilesMirror(job, t0, t', es + [e], ids[e.path := id], fids)
  {
    hide Numbers, FileRow, Dir, LastSlash, FolderRow, Given;
    NumbersSkip(fids, es, false, t0.files.Keys, e);
    forall f | f in es && f.node.File? ensures FileRow(job, f, ids[e.path := id]) == FileRow(job, f, ids) {
      RowsKept(job, f, ids, e.path, id);
    }
  }

  /** A folder reply that was believed has added exactly the row of the entry. */
  lemma NewFolderMirrored(job: Job, t0: L.Tables, t: L.Tables, es: seq<Entry>, ids: map<string, Text>, e: Entry,
                          parent: Text, hash: Text, reply: Reply)
    requires FoldersMirror(job, t0, t, es, ids) && e.node.Directory? && e.path !in ids
    requires if e.path == job.path then parent == job.remoteRoot && hash == job.hash != EMPTY
             else Dir(e.path) in ids && parent == ids[Dir(e.path)] && hash == EMPTY
    requires NewFolderOp(t, job, e.name, parent, hash, Size(e.node), reply).1.Some?
    ensures var (t', id) := NewFolderOp(t, job, e.name, parent, hash, Size(e.node), reply);
            FoldersMirror(job, t0, t', es + [e], ids[e.path := id.value]) && t'.files == t.files
  {
    hide FoldersMirror;
    var (t', id) := NewFolderOp(t, job, e.name, parent, hash, Size(e.node), reply);
    assert t' == t.(folders := t.folders[L.Given(id.value) := FolderRow(job, e, ids)]);
    FolderMirrored(job, t0, t, es, ids, e, id.value);
  }

  lemma NewFileMirrored(job: Job, t0: L.Tables, t: L.Tables, es: seq<Entry>, ids: map<string, Text>,
                        fids: map<string, Text>, e: Entry, reply: Reply)
    requires FilesMirror(job, t0, t, es, ids, fids) && e.node.File? && e.path !in fids
    requires Dir(e.path) in ids && ids[Dir(e.path)] != job.remoteRoot && Honest(job, reply)
    requires NewFileOp(t, job, e.name, Size(e.node), ids[Dir(e.path)], reply).1
    ensures var fid := reply.answer(ids[Dir(e.path)], e.name, Size(e.node)).value.id;
            FilesMirror(job, t0, NewFileOp(t, job, e.name, Size(e.node), ids[Dir(e.path)], reply).0, es + [e],
                        ids, fids[e.path := fid])
  {
    hide FilesMirror;
    var fid := reply.answer(ids[Dir(e.path)], e.name, Size(e.node)).value.id;
    var (t', ok) := NewFileOp(t, job, e.name, Size(e.node), ids[Dir(e.path)], reply);
    assert t' == t.(files := t.files[L.Given(fid) := FileRow(job, e, ids)]);
    FileMirrored(job, t0, t, es, ids, fids, e, fid);
  }

  /** What the loop of the second walk knows after `k` callbacks. */
  ghost predicate Progressing(job: Job, t0: L.Tables, t: L.Tables, done: seq<Entry>, ids: map<string, Text>,
                              fids: map<string, Text>, honest: bool) {
    && FoldersMirror(job, t0, t, done, ids)
    && Extends(t0, t)
    && (honest ==> FilesMirror(job, t0, t, done, ids, fids) && forall p :: p in ids ==> ids[p] != job.remoteRoot)
  }

  lemma FolderProgress(job: Job, t0: L.Tables, t: L.Tables, done: seq<Entry>, ids: map<string, Text>,
                       fids: map<string, Text>, honest: bool, e: Entry, parent: Text, hash: Text, reply: Reply)
    requires Progressing(job, t0, t, done, ids, fids, honest) && e.node.Directory? && e.path !in ids
    requires honest ==> Honest(job, reply)
    requires if e.path == job.path then parent == job.remoteRoot && hash == job.hash != EMPTY
             else Dir(e.path) in ids && parent == ids[Dir(e.path)] && hash == EMPTY
    ensures var (t', id) := NewFolderOp(t, job, e.name, parent, hash, Size(e.node), reply);
            && Extends(t0, t')
            && (id.Some? ==> Progressing(job, t0, t', done + [e], ids[e.path := id.value], fids, honest))
  {
    var (t', id) := NewFolderOp(t, job, e.name, parent, hash, Size(e.node), reply);
    assert Extends(t0, t');
    if id.Some? {
      NewFolderMirrored(job, t0, t, done, ids, e, parent, hash, reply);
      if honest {
        FileMirrorSkip(job, t0, t, t', done, ids, fids, e, id.value);
      }
    }
  }

  /** The exact condition for a folder. */
  lemma FolderTaken(job: Job, t0: L.Tables, t: L.Tables, done: seq<Entry>, ids: map<string, Text>, name: string,
                    parent: Text, hash: Text, size: int, reply: Reply)
    requires FoldersMirror(job, t0, t, done, ids) && L.ROOT in t.folders
    requires if hash != EMPTY then parent == job.remoteRoot else L.Given(parent) in t.folders
    ensures NewFolderOp(t, job, name, parent, hash, size, reply).1 ==
            if TakesFolder(t0, ids, parent, hash, reply) then reply.folderID else None
  {
    hide Numbers, FolderRows, Given;
  }

  lemma FileTaken(job: Job, t0: L.Tables, t: L.Tables, done: seq<Entry>, ids: map<string, Text>,
                  fids: map<string, Text>, e: Entry, parent: Text, reply: Reply)
    requires FilesMirror(job, t0, t, done, ids, fids) && L.ROOT in t.folders && L.Given(parent) in t.folders
    requires Honest(job, reply)
    ensures NewFileOp(t, job, e.name, Size(e.node), parent, reply).1 <==> TakesFile(t0, fids, e, parent, reply)
  {
    hide Numbers, FileRows, Given;
  }

  lemma FileProgress(job: Job, t0: L.Tables, t: L.Tables, done: seq<Entry>, ids: map<string, Text>,
                     fids: map<string, Text>, honest: bool, e: Entry, reply: Reply)
    returns (fids': map<string, Text>)
    requires Progressing(job, t0, t, done, ids, fids, honest) && e.node.File? && (honest ==> e.path !in fids)
    requires honest ==> Honest(job, reply)
    requires Dir(e.path) in ids
    ensures var (t', ok) := NewFileOp(t, job, e.name, Size(e.node), ids[Dir(e.path)], reply);
            && Extends(t0, t')
            && (ok ==> Progressing(job, t0, t', done + [e], ids, fids', honest))
            && (ok && honest ==>
                  fids' == fids[e.path := reply.answer(ids[Dir(e.path)], e.name, Size(e.node)).value.id])
  {
    var (t', ok) := NewFileOp(t, job, e.name, Size(e.node), ids[Dir(e.path)], reply);
    assert Extends(t0, t');
    fids' := fids;
    if ok {
      FolderMirrorSkip(job, t0, t, t', done, ids, e);
      if honest {
        NewFileMirrored(job, t0, t, done, ids, fids, e, reply);
        fids' := fids[e.path := reply.answer(ids[Dir(e.path)], e.name, Size(e.node)).value.id];
      }
    }
  }

  /** What is known about the list of callbacks. */
  ghost predicate Walked(es: seq<Entry>, r: string) {
    && DistinctPaths(es)
    && es != [] && es[0].path == r && es[0].node.Directory? && es[0].name == Base(r)
    && DirsFirst(es[1..], r)
  }

  /** The callback after the first `k` ones finds its directory, and is new. */
  lemma NextCallback(job: Job, t0: L.Tables, t: L.Tables, es: seq<Entry>, k: int, ids: map<string, Text>,
                     fids: map<string, Text>, honest: bool)
    requires Walked(es, job.path) && 1 <= k < |es| && Progressing(job, t0, t, es[..k], ids, fids, honest)
    ensures es[k].path != job.path && es[..k + 1] == es[..k] + [es[k]]
    ensures Dir(es[k].path) in ids && es[k].path !in ids && (honest ==> es[k].path !in fids)
    ensures L.Given(ids[Dir(es[k].path)]) in t.folders && Extends(t0, t)
  {
    hide *;
    ProgressParts(job, t0, t, es[..k], ids, fids, honest);
    MirrorNumbers(job, t0, t, es[..k], ids);
    WalkedAt(es, job.path, k);
    NotYet(es, k, ids, true, t0.folders.Keys);
    ParentKnown(es, k, job.path, ids, t0.folders.Keys);
    if honest {
      FileNumbers(job, t0, t, es[..k], ids, fids);
      NotYet(es, k, fids, false, t0.files.Keys);
    }
    assert es[..k + 1] == es[..k] + [es[k]];
  }

  lemma WalkedAt(es: seq<Entry>, r: string, k: int)
    requires Walked(es, r) && 1 <= k < |es|
    ensures DistinctPaths(es) && DirsFirst(es[1..], r) && es[0].path == r && es[0].node.Directory?
    ensures es[k].path != r
  {
  }

  lemma ProgressParts(job: Job, t0: L.Tables, t: L.Tables, done: seq<Entry>, ids: map<string, Text>,
                      fids: map<string, Text>, honest: bool)
    requires Progressing(job, t0, t, done, ids, fids, honest)
    ensures FoldersMirror(job, t0, t, done, ids) && Extends(t0, t)
    ensures honest ==> FilesMirror(job, t0, t, done, ids, fids)
  {
  }

  lemma MirrorNumbers(job: Job, t0: L.Tables, t: L.Tables, es: seq<Entry>, ids: map<string, Text>)
    requires FoldersMirror(job, t0, t, es, ids)
    ensures Numbers(ids, es, true, t0.folders.Keys)
    ensures forall p :: p in ids ==> L.Given(ids[p]) in t.folders
  {
  }

  lemma FileNumbers(job: Job, t0: L.Tables, t: L.Tables, es: seq<Entry>, ids: map<string, Text>,
                    fids: map<string, Text>)
    requires FilesMirror(job, t0, t, es, ids, fids)
    ensures Numbers(fids, es, false, t0.files.Keys)
  {
  }

  lemma UnderNext(es: seq<Entry>, k: int, r: string)
    requires 0 <= k < |es| && (es[k].node.File? ==> Inside(r, Dir(es[k].path)))
    ensures Under(es[..k + 1], r) == Under(es[..k], r) + FileSize(es[k].node)
    ensures Under(es[..k + 1], r) <= Under(es, r)
  {
    assert es[..k + 1][..k] == es[..k];
    UnderPrefix(es, k + 1, r);
  }

  /** Sizes of the directories, and the facts about the walk, in the form the upload uses. */
  method Measure(kids: Kids, r: string) returns (es: seq<Entry>, sizes: map<string, int>)
    requires IsRoot(r) && WellFormedKids(kids)
    ensures es == Walk(Directory(kids), r, Base(r)) && Walked(es, r)
    ensures Under(es[..0], r) == 0 && Under(es, r) == SizeKids(kids)
    ensures forall e :: e in es && e.node.Directory? ==> Get(sizes, e.path) == Size(e.node)
    ensures forall e :: e in es && e.node.File? ==> Inside(r, Dir(e.path))
    ensures es[0] == Entry(r, Base(r), Directory(kids))
  {
    es := Walk(Directory(kids), r, Base(r));
    WalkFacts(kids, r, Base(r));
    sizes := DirSizes(es, r);
    assert es[0] in es;
  }

  /** The reports of one more entry. */
  lemma ReportsNext(es: seq<Entry>, replies: nat -> Reply, k: nat, reports: seq<int>, bytes: int, total: int)
    requires AllSteady(es, replies) && k < |es| && Steady(reports, 0, bytes)
    requires 0 <= bytes && bytes + FileSize(es[k].node) <= total
    ensures Steady(reports, 0, total)
    ensures es[k].node.File? ==>
              var next := reports + Shifted(replies(k).progress, bytes);
              Steady(next, 0, bytes + es[k].node.size) && Steady(next, 0, total)
  {
  }

  method VisitFolder(db: F.Database, job: Job, e: Entry, parent: Text, hash: Text, size: int, reply: Reply,
                     ghost t0: L.Tables, ghost done: seq<Entry>, ghost ids: map<string, Text>,
                     ghost fids: map<string, Text>, ghost honest: bool)
    returns (id: Option<Text>)
    requires db.Valid() && Progressing(job, t0, db.tables, done, ids, fids, honest)
    requires e.node.Directory? && e.path !in ids && size == Size(e.node) && (honest ==> Honest(job, reply))
    requires if e.path == job.path then parent == job.remoteRoot && hash == job.hash != EMPTY
             else
               && Dir(e.path) in ids && parent == ids[Dir(e.path)] && hash == EMPTY
               && L.Given(parent) in db.tables.folders
    modifies db`tables
    ensures db.Valid() && Extends(t0, db.tables)
    ensures id.Some? ==> Progressing(job, t0, db.tables, done + [e], ids[e.path := id.value], fids, honest)
    ensures id == if TakesFolder(t0, ids, parent, hash, reply) then reply.folderID else None
  {
    hide Progressing, NewFolderOp, Extends, Honest, L.Tree, TakesFolder, FoldersMirror, FilesMirror;
    ProgressParts(job, t0, db.tables, done, ids, fids, honest);
    L.TreeRoot(db.tables);
    FolderTaken(job, t0, db.tables, done, ids, e.name, parent, hash, size, reply);
    FolderProgress(job, t0, db.tables, done, ids, fids, honest, e, parent, hash, reply);
    id := NewFolder(db, job, e.name, parent, hash, size, reply);
  }

  method VisitFile(db: F.Database, job: Job, e: Entry, parent: Text, size: int, reply: Reply,
                   ghost t0: L.Tables, ghost done: seq<Entry>, ghost ids: map<string, Text>,
                   ghost fids: map<string, Text>, ghost honest: bool)
    returns (ok: bool, ghost fids': map<string, Text>)
    requires db.Valid() && Progressing(job, t0, db.tables, done, ids, fids, honest)
    requires e.node.File? && (honest ==> e.path !in fids) && size == Size(e.node) && (honest ==> Honest(job, reply))
    requires Dir(e.path) in ids && parent == ids[Dir(e.path)] && L.Given(parent) in db.tables.folders
    modifies db`tables
    ensures db.Valid() && Extends(t0, db.tables)
    ensures ok ==> Progressing(job, t0, db.tables, done + [e], ids, fids', honest)
    ensures honest ==> (ok <==> TakesFile(t0, fids, e, parent, reply))
    ensures honest && ok ==> fids' == fids[e.path := reply.answer(parent, e.name, Size(e.node)).value.id]
  {
    hide Progressing, NewFileOp, Extends, Honest, L.Tree, TakesFile, FoldersMirror, FilesMirror;
    ProgressParts(job, t0, db.tables, done, ids, fids, honest);
    L.TreeRoot(db.tables);
    if honest {
      FileTaken(job, t0, db.tables, done, ids, fids, e, parent, reply);
    }
    fids' := FileProgress(job, t0, db.tables, done, ids, fids, honest, e, reply);
    ok := NewFile(db, job, e.name, size, parent, reply);
  }

  /** The variables that the callback of the second walk changes. */
  datatype Progress = Progress(folderIDs: map<string, Text>, bytes: int, reports: seq<int>)

  function Done(es: seq<Entry>, k: nat): seq<Entry>
    requires k <= |es| && es != []
  {
    if k == 0 then es[..1] else es[..k]
  }

  /** What holds after the first `k` callbacks; the first folder is created before the walk. */
  ghost predicate Invariant(job: Job, t0: L.Tables, t: L.Tables, es: seq<Entry>, k: nat, replies: nat -> Reply,
                            p: Progress, fids: map<string, Text>)
    requires k <= |es| && es != []
  {
    && Progressing(job, t0, t, Done(es, k), p.folderIDs, fids, AllHonest(job, es, replies))
    && 0 <= p.bytes == Under(es[..k], job.path)
    && (AllSteady(es, replies) ==> Steady(p.reports, 0, p.bytes))
    && Recorded(job, t0, es, if k == 0 then 1 else k, replies, p, fids)
  }

  /** What the first `k` entries report: the bytes of the files before, and those read of the file itself. */
  function AllReports(es: seq<Entry>, r: string, replies: nat -> Reply, k: nat): seq<int>
    requires k <= |es|
  {
    if k == 0 then []
    else
      AllReports(es, r, replies, k - 1)
      + if es[k - 1].node.File? then Shifted(replies(k - 1).progress, Under(es[..k - 1], r)) else []
  }

  predicate HasFile(es: seq<Entry>, k: nat)
    requires k <= |es|
  {
    exists i :: 0 <= i < k && es[i].node.File?
  }

  lemma HasFileNext(es: seq<Entry>, k: nat)
    requires k < |es|
    ensures HasFile(es, k + 1) <==> HasFile(es, k) || es[k].node.File?
  {
  }

  lemma ShiftedLast(progress: seq<int>, bytes: int)
    requires progress != []
    ensures Shifted(progress, bytes) != []
    ensures Shifted(progress, bytes)[|Shifted(progress, bytes)| - 1] == bytes + progress[|progress| - 1]
  {
  }

  /** If every file reports its end, the last report of all is the size of the whole tree. */
  lemma {:induction false} LastReport(es: seq<Entry>, r: string, replies: nat -> Reply, k: nat)
    requires k <= |es| && forall i :: 0 <= i < |es| && es[i].node.File? ==> Inside(r, Dir(es[i].path))
    requires forall i: nat :: i < k && es[i].node.File? ==>
               replies(i).progress != [] && replies(i).progress[|replies(i).progress| - 1] == es[i].node.size
    ensures var reports := AllReports(es, r, replies, k);
            if HasFile(es, k) then reports != [] && reports[|reports| - 1] == Under(es[..k], r)
            else reports == [] && Under(es[..k], r) == 0
  {
    hide Inside, Dir, Under, Shifted, HasFile, AllReports;
    if k > 0 {
      LastReport(es, r, replies, k - 1);
      UnderNext(es, k - 1, r);
      HasFileNext(es, k - 1);
      AllReportsNext(es, r, replies, k - 1);
      if es[k - 1].node.File? {
        ShiftedLast(replies(k - 1).progress, Under(es[..k - 1], r));
      }
    } else {
      NoReports(es, r, replies);
    }
  }

  lemma NoReports(es: seq<Entry>, r: string, replies: nat -> Reply)
    ensures AllReports(es, r, replies, 0) == [] && Under(es[..0], r) == 0 && !HasFile(es, 0)
  {
  }

  /** The answers so far are in the maps, and the byte counts have been reported. */
  ghost predicate Recorded(job: Job, t0: L.Tables, es: seq<Entry>, k: nat, replies: nat -> Reply, p: Progress,
                           fids: map<string, Text>)
    requires k <= |es|
  {
    && TakesRoot(job, t0, replies)
    && p.folderIDs == FolderIDs(es, replies, k)
    && p.reports == AllReports(es, job.path, replies, k)
    && (AllHonest(job, es, replies) ==> fids == FileIDs(es, replies, k))
  }

  lemma RecordedNext(job: Job, t0: L.Tables, es: seq<Entry>, k: nat, replies: nat -> Reply, p: Progress,
                     fids: map<string, Text>, p': Progress, fids': map<string, Text>)
    requires k < |es| && Recorded(job, t0, es, k, replies, p, fids) && Dir(es[k].path) in p.folderIDs
    requires var e, reply := es[k], replies(k);
             if e.node.Directory? then
               && reply.folderID.Some? && p'.folderIDs == p.folderIDs[e.path := reply.folderID.value] && fids' == fids
               && p'.reports == p.reports
             else
               && p'.folderIDs == p.folderIDs
               && p'.reports == p.reports + Shifted(reply.progress, Under(es[..k], job.path))
               && (AllHonest(job, es, replies) ==>
                     var data := reply.answer(p.folderIDs[Dir(e.path)], e.name, e.node.size);
                     data.Some? && fids' == fids[e.path := data.value.id])
    ensures Recorded(job, t0, es, k + 1, replies, p', fids')
  {
    hide AllHonest, Dir, TakesRoot, Under, Shifted;
    AllReportsNext(es, job.path, replies, k);
  }

  lemma AllReportsNext(es: seq<Entry>, r: string, replies: nat -> Reply, k: nat)
    requires k < |es|
    ensures AllReports(es, r, replies, k + 1) ==
            AllReports(es, r, replies, k)
            + if es[k].node.File? then Shifted(replies(k).progress, Under(es[..k], r)) else []
  {
  }

  lemma ServedIn(job: Job, t0: L.Tables, es: seq<Entry>, k: nat, replies: nat -> Reply, p: Progress,
                 fids: map<string, Text>)
    requires 0 < k < |es| && Recorded(job, t0, es, k, replies, p, fids) && Dir(es[k].path) in p.folderIDs
    ensures es[k].node.Directory? ==>
              (Served(job, t0, es, replies, k) <==>
                 replies(k).inspected
                 && TakesFolder(t0, p.folderIDs, p.folderIDs[Dir(es[k].path)], EMPTY, replies(k)))
    ensures es[k].node.File? && AllHonest(job, es, replies) ==>
              (Served(job, t0, es, replies, k) <==>
                 replies(k).inspected && TakesFile(t0, fids, es[k], p.folderIDs[Dir(es[k].path)], replies(k)))
  {
    hide AllHonest, Dir, TakesRoot, TakesFolder, TakesFile, FolderIDs, FileIDs;
  }

  lemma InvariantParts(job: Job, t0: L.Tables, t: L.Tables, es: seq<Entry>, k: nat, replies: nat -> Reply,
                       p: Progress, fids: map<string, Text>)
    requires Walked(es, job.path) && k < |es| && Invariant(job, t0, t, es, k, replies, p, fids)
    requires es[k].node.File? ==> Inside(job.path, Dir(es[k].path))
    ensures Extends(t0, t) && 0 <= p.bytes == Under(es[..k], job.path)
    ensures k == 0 ==> es[k].path == job.path && Invariant(job, t0, t, es, k + 1, replies, p, fids)
    ensures TakesRoot(job, t0, replies)
    ensures k > 0 ==> Recorded(job, t0, es, k, replies, p, fids)
    ensures k > 0 ==> es[k].path != job.path
                      && Progressing(job, t0, t, es[..k], p.folderIDs, fids, AllHonest(job, es, replies))
    ensures k > 0 ==> Dir(es[k].path) in p.folderIDs && es[k].path !in p.folderIDs
                      && (AllHonest(job, es, replies) ==> es[k].path !in fids)
                      && L.Given(p.folderIDs[Dir(es[k].path)]) in t.folders
  {
    hide Walked, FoldersMirror, FilesMirror, Extends, Progressing, Under, Steady, Inside, AllHonest, AllSteady, Done;
    hide DirsFirst, DistinctPaths, Dir, LastSlash, Given, FileSize, Shifted, FolderIDs, FileIDs, TakesRoot;
    UnderNext(es, k, job.path);
    DoneAt(es, k);
    ProgressParts(job, t0, t, Done(es, k), p.folderIDs, fids, AllHonest(job, es, replies));
    if k > 0 {
      NextCallback(job, t0, t, es, k, p.folderIDs, fids, AllHonest(job, es, replies));
    } else {
      WalkedFirst(es, job.path);
    }
  }

  lemma InvariantReports(job: Job, t0: L.Tables, t: L.Tables, es: seq<Entry>, k: nat, replies: nat -> Reply,
                         p: Progress, fids: map<string, Text>)
    requires k < |es| && Invariant(job, t0, t, es, k, replies, p, fids) && AllSteady(es, replies)
    requires es[k].node.File? ==> Inside(job.path, Dir(es[k].path))
    ensures Steady(p.reports, 0, p.bytes) && Steady(p.reports, 0, Under(es, job.path))
    ensures es[k].node.File? ==>
              var next := p.reports + Shifted(replies(k).progress, p.bytes);
              Steady(next, 0, p.bytes + es[k].node.size) && Steady(next, 0, Under(es, job.path))
  {
    hide Progressing, Recorded, Under, Steady, Inside, AllHonest, AllSteady, Done, Dir, FileSize, Shifted;
    UnderNext(es, k, job.path);
    ReportsNext(es, replies, k, p.reports, p.bytes, Under(es, job.path));
  }

  lemma DoneAt(es: seq<Entry>, k: nat)
    requires k < |es|
    ensures k > 0 ==> Done(es, k) == es[..k] && Done(es, k + 1) == es[..k] + [es[k]]
    ensures k == 0 ==> Done(es, k + 1) == Done(es, k)
  {
  }

  lemma WalkedFirst(es: seq<Entry>, r: string)
    requires Walked(es, r)
    ensures es[0].path == r && FileSize(es[0].node) == 0
  {
  }

  lemma InvariantNext(job: Job, t0: L.Tables, t: L.Tables, es: seq<Entry>, k: nat, replies: nat -> Reply,
                      bytes: int, p': Progress, fids': map<string, Text>)
    requires 0 < k < |es| && 0 <= bytes == Under(es[..k], job.path)
    requires es[k].node.File? ==> Inside(job.path, Dir(es[k].path))
    requires Progressing(job, t0, t, es[..k] + [es[k]], p'.folderIDs, fids', AllHonest(job, es, replies))
    requires p'.bytes == bytes + FileSize(es[k].node)
    requires AllSteady(es, replies) ==> Steady(p'.reports, 0, p'.bytes)
    requires Recorded(job, t0, es, k + 1, replies, p', fids')
    ensures Invariant(job, t0, t, es, k + 1, replies, p', fids')
  {
    hide Walked, FoldersMirror, FilesMirror, Extends, Progressing, Under, Steady, Inside, AllHonest, AllSteady, Done;
    hide Recorded;
    hide DirsFirst, DistinctPaths, Dir, LastSlash, Given, FileSize, Shifted;
    UnderNext(es, k, job.path);
    DoneAt(es, k);
  }

  lemma InvariantStart(job: Job, t0: L.Tables, t: L.Tables, es: seq<Entry>, replies: nat -> Reply, p: Progress,
                       fids: map<string, Text>)
    requires es != [] && Under(es[..0], job.path) == 0 == p.bytes && p.reports == []
    requires Progressing(job, t0, t, [] + [es[0]], p.folderIDs, fids, AllHonest(job, es, replies))
    requires TakesRoot(job, t0, replies) && es[0].node.Directory? && fids == map[]
    requires p.folderIDs == map[es[0].path := replies(0).folderID.value]
    ensures Invariant(job, t0, t, es, 0, replies, p, fids) && Steady(p.reports, 0, Under(es, job.path))
  {
    hide Progressing, AllHonest, AllSteady;
    assert Done(es, 0) == [] + [es[0]];
    assert FolderIDs(es, replies, 0) == map[] && FileIDs(es, replies, 0) == map[];
    NoReports(es, job.path, replies);
    SteadyNone();
  }

  lemma InvariantEnd(job: Job, t0: L.Tables, t: L.Tables, es: seq<Entry>, replies: nat -> Reply, p: Progress,
                     fids: map<string, Text>)
    requires es != [] && Invariant(job, t0, t, es, |es|, replies, p, fids)
    ensures FoldersMirror(job, t0, t, es, p.folderIDs) && Extends(t0, t)
    ensures AllHonest(job, es, replies) ==> FilesMirror(job, t0, t, es, p.folderIDs, fids)
    ensures p.reports == AllReports(es, job.path, replies, |es|)
  {
    hide Progressing, AllHonest, AllSteady, Under, AllReports;
    assert es[..|es|] == es;
    ProgressParts(job, t0, t, es, p.folderIDs, fids, AllHonest(job, es, replies));
  }

  lemma ServedFirst(job: Job, t0: L.Tables, es: seq<Entry>, replies: nat -> Reply)
    requires es != [] && TakesRoot(job, t0, replies)
    ensures Served(job, t0, es, replies, 0) <==> replies(0).inspected
  {
  }

  lemma TakesID(t0: L.Tables, ids: map<string, Text>, parent: Text, hash: Text, reply: Reply)
    ensures TakesFolder(t0, ids, parent, hash, reply) ==> reply.folderID.Some?
  {
  }

  lemma TakesAnswer(t0: L.Tables, fids: map<string, Text>, e: Entry, parent: Text, reply: Reply)
    ensures TakesFile(t0, fids, e, parent, reply) ==> reply.answer(parent, e.name, Size(e.node)).Some?
  {
  }

  lemma SizeOf(n: Node)
    ensures n.File? ==> Size(n) == FileSize(n) == n.size
    ensures n.Directory? ==> FileSize(n) == 0
  {
  }

  /** One callback of the second walk. */
  method Callback(db: F.Database, job: Job, es: seq<Entry>, k: nat, sizes: map<string, int>, replies: nat -> Reply,
                  p: Progress, ghost t0: L.Tables, ghost fids: map<string, Text>)
    returns (out: Outcome, p': Progress, ghost fids': map<string, Text>)
    requires db.Valid() && Walked(es, job.path) && k < |es|
    requires Invariant(job, t0, db.tables, es, k, replies, p, fids)
    requires es[k].node.Directory? ==> Get(sizes, es[k].path) == Size(es[k].node)
    requires es[k].node.File? ==> Inside(job.path, Dir(es[k].path))
    modifies db`tables
    ensures db.Valid() && Extends(t0, db.tables) && out != NoParent
    ensures out == Uploaded ==> Invariant(job, t0, db.tables, es, k + 1, replies, p', fids')
    ensures AllHonest(job, es, replies) ==> (out == Uploaded <==> Served(job, t0, es, replies, k))
    ensures AllSteady(es, replies) ==> Steady(p'.reports, 0, Under(es, job.path))
  {
    hide *;
    out, p', fids' := Uploaded, p, fids;
    ghost var honest := AllHonest(job, es, replies);
    HonestAt(job, es, replies, k);
    InvariantParts(job, t0, db.tables, es, k, replies, p, fids);
    if AllSteady(es, replies) {
      InvariantReports(job, t0, db.tables, es, k, replies, p, fids);
    }
    if es[k].path == job.path {
      ServedFirst(job, t0, es, replies);
      // The walk reports a directory once more when its entries cannot be read.
      if !replies(k).inspected {
        out := LocalFailed;
      }
      return;
    }
    ServedIn(job, t0, es, k, replies, p, fids);
    var parent := Dir(es[k].path);
    if parent !in p.folderIDs {
      return NoParent, p', fids';
    }
    if es[k].node.Directory? {
      var id := VisitFolder(db, job, es[k], p.folderIDs[parent], EMPTY, Get(sizes, es[k].path), replies(k),
                            t0, es[..k], p.folderIDs, fids, honest);
      TakesID(t0, p.folderIDs, p.folderIDs[parent], EMPTY, replies(k));
      if id == None {
        return FolderFailed, p', fids';
      }
      p' := p.(folderIDs := p.folderIDs[es[k].path := id.value]);
      RecordedNext(job, t0, es, k, replies, p, fids, p', fids');
      SizeOf(es[k].node);
      InvariantNext(job, t0, db.tables, es, k, replies, p.bytes, p', fids');
      if !replies(k).inspected {
        return LocalFailed, p', fids';
      }
    } else {
      if !replies(k).inspected {
        return LocalFailed, p', fids';
      }
      p' := p.(reports := p.reports + Shifted(replies(k).progress, p.bytes));
      SizeOf(es[k].node);
      var ok;
      ok, fids' := VisitFile(db, job, es[k], p.folderIDs[parent], es[k].node.size, replies(k),
                             t0, es[..k], p.folderIDs, fids, honest);
      TakesAnswer(t0, fids, es[k], p.folderIDs[parent], replies(k));
      if !ok {
        return FileFailed, p', fids';
      }
      p' := p'.(bytes := p.bytes + es[k].node.size);
      RecordedNext(job, t0, es, k, replies, p, fids, p', fids');
      InvariantNext(job, t0, db.tables, es, k, replies, p.bytes, p', fids');
    }
  }

  /** The local tree can be read, and every entry gets what it asks for. */
  ghost predicate AllServed(job: Job, t0: L.Tables, es: seq<Entry>, replies: nat -> Reply) {
    forall k: nat :: k < |es| ==> Served(job, t0, es, replies, k)
  }

  lemma ServedPrefix(job: Job, t0: L.Tables, es: seq<Entry>, replies: nat -> Reply, k: nat)
    requires k < |es| && !Served(job, t0, es, replies, k)
    ensures !AllServed(job, t0, es, replies)
  {
  }

  lemma ServedAll(job: Job, t0: L.Tables, es: seq<Entry>, replies: nat -> Reply)
    requires forall k: nat :: k < |es| ==> Served(job, t0, es, replies, k)
    ensures AllServed(job, t0, es, replies)
  {
  }

  lemma RootNotServed(job: Job, t0: L.Tables, es: seq<Entry>, replies: nat -> Reply)
    requires es != [] && !TakesRoot(job, t0, replies)
    ensures !AllServed(job, t0, es, replies)
  {
    ServedPrefix(job, t0, es, replies, 0);
  }

  /** The second walk. */
  method SendEntries(db: F.Database, job: Job, es: seq<Entry>, sizes: map<string, int>, replies: nat -> Reply,
                     start: Progress, ghost t0: L.Tables)
    returns (out: Outcome, reports: seq<int>, ghost ids: map<string, Text>, ghost fids: map<string, Text>)
    requires db.Valid() && Walked(es, job.path) && es != []
    requires Invariant(job, t0, db.tables, es, 0, replies, start, map[])
    requires Steady(start.reports, 0, Under(es, job.path))
    requires forall e :: e in es && e.node.Directory? ==> Get(sizes, e.path) == Size(e.node)
    requires forall e :: e in es && e.node.File? ==> Inside(job.path, Dir(e.path))
    modifies db`tables
    ensures db.Valid() && Extends(t0, db.tables) && out != NoParent
    ensures AllHonest(job, es, replies) ==> (out == Uploaded <==> AllServed(job, t0, es, replies))
    ensures out == Uploaded ==> FoldersMirror(job, t0, db.tables, es, ids)
    ensures out == Uploaded && AllHonest(job, es, replies) ==> FilesMirror(job, t0, db.tables, es, ids, fids)
    ensures AllSteady(es, replies) ==> Steady(reports, 0, Under(es, job.path))
    ensures out == Uploaded ==> reports == AllReports(es, job.path, replies, |es|)
  {
    hide *;
    var p := start;
    fids := map[];
    for k := 0 to |es|
      invariant db.Valid() && Invariant(job, t0, db.tables, es, k, replies, p, fids)
      invariant AllHonest(job, es, replies) ==> forall j: nat :: j < k ==> Served(job, t0, es, replies, j)
      invariant AllSteady(es, replies) ==> Steady(p.reports, 0, Under(es, job.path))
    {
      out, p, fids := Callback(db, job, es, k, sizes, replies, p, t0, fids);
      if out != Uploaded {
        if AllHonest(job, es, replies) {
          ServedPrefix(job, t0, es, replies, k);
        }
        return out, p.reports, p.folderIDs, fids;
      }
    }
    InvariantEnd(job, t0, db.tables, es, replies, p, fids);
    if AllHonest(job, es, replies) {
      ServedAll(job, t0, es, replies);
    }
    out, reports, ids := Uploaded, p.reports, p.folderIDs;
  }

  /**
   Directories: `ids` and `fids` say which rows the entries became, `reports`
   are the byte counts handed to the progress callback. `walked` says whether
   the first walk could read the tree.
   */
  method SendDirectory(db: F.Database, job: Job, kids: Kids, walked: bool, replies: nat -> Reply)
    returns (out: Outcome, reports: seq<int>, ghost ids: map<string, Text>, ghost fids: map<string, Text>)
    requires db.Valid() && IsRoot(job.path) && WellFormedKids(kids) && job.hash != EMPTY
    modifies db`tables
    ensures db.Valid() && Extends(old(db.tables), db.tables) && out != NoParent
    ensures AllHonest(job, Walk(Directory(kids), job.path, Base(job.path)), replies) ==>
              (out == Uploaded <==>
                 walked && AllServed(job, old(db.tables), Walk(Directory(kids), job.path, Base(job.path)), replies))
    ensures out == Uploaded ==>
              FoldersMirror(job, old(db.tables), db.tables, Walk(Directory(kids), job.path, Base(job.path)), ids)
    ensures out == Uploaded && AllHonest(job, Walk(Directory(kids), job.path, Base(job.path)), replies) ==>
              FilesMirror(job, old(db.tables), db.tables, Walk(Directory(kids), job.path, Base(job.path)), ids, fids)
    ensures AllSteady(Walk(Directory(kids), job.path, Base(job.path)), replies) ==> Steady(reports, 0, SizeKids(kids))
    ensures out == Uploaded ==>
              var es := Walk(Directory(kids), job.path, Base(job.path));
              reports == AllReports(es, job.path, replies, |es|)
  {
    hide *;
    var es, sizes := Measure(kids, job.path);
    ghost var honest, t0 := AllHonest(job, es, replies), db.tables;
    HonestAt(job, es, replies, 0);
    assert es[0] in es;
    out, reports, ids, fids := Uploaded, [], map[], map[];
    SteadyNone();
    MirrorStart(job, t0);
    if !walked {
      return LocalFailed, reports, ids, fids;
    }
    var first := VisitFolder(db, job, es[0], job.remoteRoot, job.hash, Get(sizes, job.path), replies(0),
                             t0, [], ids, fids, honest);
    TakesID(t0, ids, job.remoteRoot, job.hash, replies(0));
    RootTaken(job, t0, replies);
    if first == None {
      RootNotServed(job, t0, es, replies);
      return FolderFailed, reports, ids, fids;
    }
    var p := Progress(map[job.path := first.value], 0, []);
    assert map[][job.path := first.value] == p.folderIDs;
    InvariantStart(job, t0, db.tables, es, replies, p, fids);
    out, reports, ids, fids := SendEntries(db, job, es, sizes, replies, p, t0);
  }

  lemma RootTaken(job: Job, t0: L.Tables, replies: nat -> Reply)
    ensures TakesRoot(job, t0, replies) <==> TakesFolder(t0, map[], job.remoteRoot, job.hash, replies(0))
  {
  }

  /**
   A single file goes below the remote root, which the table knows as the
   placeholder. `walked` says whether the path, or the tree there, could be read.
   */
  method Send(db: F.Database, job: Job, tree: Node, walked: bool, replies: nat -> Reply)
    returns (out: Outcome, reports: seq<int>, ghost ids: map<string, Text>, ghost fids: map<string, Text>)
    requires db.Valid() && IsRoot(job.path) && WellFormed(tree) && job.hash != EMPTY
    modifies db`tables
    ensures db.Valid() && Extends(old(db.tables), db.tables) && out != NoParent
    ensures tree.Directory? && AllHonest(job, Walk(tree, job.path, Base(job.path)), replies) ==>
              (out == Uploaded <==>
                 walked && AllServed(job, old(db.tables), Walk(tree, job.path, Base(job.path)), replies))
    ensures out == Uploaded && tree.Directory? ==>
              FoldersMirror(job, old(db.tables), db.tables, Walk(tree, job.path, Base(job.path)), ids)
    ensures out == Uploaded && tree.Directory? && AllHonest(job, Walk(tree, job.path, Base(job.path)), replies) ==>
              FilesMirror(job, old(db.tables), db.tables, Walk(tree, job.path, Base(job.path)), ids, fids)
    ensures tree.File? && Honest(job, replies(0)) ==>
              (out == Uploaded <==>
                 && walked
                 && TakesFile(old(db.tables), map[], Entry(job.path, Base(job.path), tree), job.remoteRoot,
                              replies(0)))
    ensures out == Uploaded && tree.File? && Honest(job, replies(0)) ==>
              && job.path in fids && L.Given(fids[job.path]) !in old(db.tables).files
              && db.tables == old(db.tables).(files := old(db.tables).files[L.Given(fids[job.path]) :=
                   L.File(L.ROOT, job.user, job.now, Base(job.path), tree.size)])
    ensures AllSteady(Walk(tree, job.path, Base(job.path)), replies) ==> Steady(reports, 0, Size(tree))
    ensures out == Uploaded ==>
              var es := Walk(tree, job.path, Base(job.path));
              reports == if tree.File? then replies(0).progress else AllReports(es, job.path, replies, |es|)
  {
    if tree.Directory? {
      out, reports, ids, fids := SendDirectory(db, job, tree.kids, walked, replies);
    } else {
      SingleSteady(job, tree, replies);
      L.TreeRoot(db.tables);
      assert Given(map[]) == {};
      ids, fids := map[], map[];
      if !walked {
        return LocalFailed, [], ids, fids;
      }
      reports := replies(0).progress;
      var ok := NewFile(db, job, Base(job.path), tree.size, job.remoteRoot, replies(0));
      out := if ok then Uploaded else FileFailed;
      if ok {
        fids := map[job.path := replies(0).answer(job.remoteRoot, Base(job.path), tree.size).value.id];
      }
    }
  }

  lemma SingleSteady(job: Job, tree: Node, replies: nat -> Reply)
    requires tree.File? && WellFormed(tree)
    ensures AllSteady(Walk(tree, job.path, Base(job.path)), replies) ==> Steady(replies(0).progress, 0, Size(tree))
    ensures Steady([], 0, Size(tree))
  {
    assert Walk(tree, job.path, Base(job.path))[0].node == tree;
  }
}
