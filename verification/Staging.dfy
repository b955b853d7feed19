/**
 The staging of the selected files: they are linked from `torrent` to `payload`,
 so nothing else can be uploaded, and on disk they cost what the new directories
 cost.
 */
module Staging {
  import opened Paths
  import opened Reservation
  import opened Wrappers

  type Path = seq<string>

  datatype Item = File(inode: Inode) | Directory(inode: Inode) | Link(inode: Inode)

  /** What is in a job directory, by path; the job directory itself is `[]`. */
  type Tree = map<Path, Item>

  ghost predicate Rooted(tree: Tree) {
    && [] in tree && tree[[]].Directory?
    && forall p :: p in tree && p != [] ==> p[..|p| - 1] in tree && tree[p[..|p| - 1]].Directory?
  }

  predicate InPayload(p: Path) {
    p != [] && p[0] == "payload"
  }

  function Cleared(tree: Tree): Tree {
    map p | p in tree && !InPayload(p) :: tree[p]
  }

  function Source(path: string): Path {
    ["torrent"] + Split(path)
  }

  function Target(path: string): Path {
    ["payload"] + Split(path)
  }

  predicate NoLinks(tree: Tree) {
    forall p :: p in tree ==> !tree[p].Link?
  }

  predicate Stageable(tree: Tree, path: string, clean: string -> string) {
    SafeRelative(path, clean) && Source(path) in tree && tree[Source(path)].File?
  }

  /** Safe paths of regular files, none twice. */
  ghost predicate AllStageable(tree: Tree, paths: seq<string>, clean: string -> string) {
    && (forall i :: 0 <= i < |paths| ==> Stageable(tree, paths[i], clean))
    && forall i, k :: 0 <= i < k < |paths| ==> paths[i] != paths[k]
  }

  predicate IsTarget(paths: seq<string>, p: Path) {
    exists i :: 0 <= i < |paths| && p == Target(paths[i])
  }

  /** On the way from the job directory to `p`. */
  predicate Leads(d: Path, p: Path) {
    d != [] && d <= p
  }

  /** `payload` and the directories on the way to the files. */
  predicate IsNewDir(paths: seq<string>, d: Path) {
    d == ["payload"] || exists i :: 0 <= i < |paths| && Leads(d, Target(paths[i])) && d != Target(paths[i])
  }

  ghost predicate HoldsOnly(tree: Tree, tree': Tree, paths: seq<string>) {
    forall p :: p in tree' <==> p in Cleared(tree) || IsNewDir(paths, p) || IsTarget(paths, p)
  }

  ghost predicate KeepsRest(tree: Tree, tree': Tree) {
    forall p :: p in Cleared(tree) ==> p in tree' && tree'[p] == tree[p]
  }

  ghost predicate DirsMade(tree': Tree, paths: seq<string>, inodeOf: Path -> Inode) {
    forall d :: IsNewDir(paths, d) ==> d in tree' && tree'[d] == Directory(inodeOf(d))
  }

  ghost predicate FilesLinked(tree: Tree, tree': Tree, paths: seq<string>) {
    forall i :: 0 <= i < |paths| ==>
      && Source(paths[i]) in tree && Target(paths[i]) in tree'
      && tree'[Target(paths[i])] == tree[Source(paths[i])]
  }

  /** `payload` holds the given files and the directories on the way to them, and nothing else has changed. */
  ghost predicate Staged(tree: Tree, tree': Tree, paths: seq<string>, inodeOf: Path -> Inode) {
    && HoldsOnly(tree, tree', paths) && KeepsRest(tree, tree')
    && DirsMade(tree', paths, inodeOf) && FilesLinked(tree, tree', paths)
  }

  // ----------------------------------------------------------------- no path in another

  lemma {:induction false} PrefixDirectory(tree: Tree, p: Path, q: Path)
    requires Rooted(tree) && p in tree && q < p
    ensures q in tree && tree[q].Directory?
    decreases |p|
  {
    var parent := p[..|p| - 1];
    if q != parent {
      assert q < parent;
      PrefixDirectory(tree, parent, q);
    }
  }

  lemma SamePrefix(x: string, y: string, s: Path, t: Path)
    requires [x] + s <= [x] + t
    ensures [y] + s <= [y] + t
  {
    forall i | 0 <= i < |s| ensures s[i] == t[i] {
      assert ([x] + s)[i + 1] == ([x] + t)[i + 1];
    }
  }

  /** A selected file is not a directory on the way to another one. */
  lemma NotOnTheWay(tree: Tree, a: string, b: string, clean: string -> string)
    requires Rooted(tree) && Stageable(tree, a, clean) && Stageable(tree, b, clean)
    ensures Leads(Target(a), Target(b)) ==> Target(a) == Target(b)
  {
    hide SafeRelative, Split, Rooted;
    if Target(a) <= Target(b) && Target(a) != Target(b) {
      SamePrefix("payload", "torrent", Split(a), Split(b));
      PrefixDirectory(tree, Source(b), Source(a));
    }
  }

  lemma TargetInjective(a: string, b: string)
    requires Target(a) == Target(b)
    ensures a == b
  {
    assert Target(a)[1..] == Split(a) && Target(b)[1..] == Split(b);
    JoinedSplit(a);
    JoinedSplit(b);
  }

  // -------------------------------------------------------------------------- the loop

  /** Every missing directory on the way to `dir` is there, and nothing else has changed. */
  ghost predicate Made(tree: Tree, tree': Tree, dir: Path, inodeOf: Path -> Inode) {
    && (forall p :: p in tree' <==> p in tree || Leads(p, dir))
    && (forall p :: p in tree ==> tree'[p] == tree[p])
    && (forall p :: Leads(p, dir) && p !in tree ==> tree'[p] == Directory(inodeOf(p)))
  }

  method MakeAll(tree: Tree, dir: Path, inodeOf: Path -> Inode) returns (r: Option<Tree>)
    ensures r.Some? <==> forall d :: Leads(d, dir) && d in tree ==> tree[d].Directory?
    ensures r.Some? ==> Made(tree, r.value, dir, inodeOf)
  {
    hide Leads;
    var made := tree;
    LeadsNone();
    for k := 0 to |dir|
      invariant forall d :: Leads(d, dir[..k]) && d in tree ==> tree[d].Directory?
      invariant Made(tree, made, dir[..k], inodeOf)
    {
      var d := dir[..k + 1];
      forall p ensures Leads(p, d) <==> Leads(p, dir[..k]) || p == d {
        LeadsNext(dir, k, p);
      }
      LeadsPart(dir, k + 1);
      if d in made {
        LeadsShort(dir, k);
        if !made[d].Directory? {
          return None;
        }
      } else {
        made := made[d := Directory(inodeOf(d))];
      }
    }
    assert dir[..|dir|] == dir;
    r := Some(made);
  }

  lemma LeadsNone()
    ensures forall p :: !Leads(p, [])
  {
  }

  lemma LeadsShort(dir: Path, k: int)
    requires 0 <= k < |dir|
    ensures !Leads(dir[..k + 1], dir[..k])
  {
  }

  lemma LeadsPart(dir: Path, k: int)
    requires 0 < k <= |dir|
    ensures Leads(dir[..k], dir)
  {
  }

  lemma LeadsNext(dir: Path, k: int, p: Path)
    requires 0 <= k < |dir|
    ensures Leads(p, dir[..k + 1]) <==> Leads(p, dir[..k]) || p == dir[..k + 1]
  {
    if Leads(p, dir[..k + 1]) && p != dir[..k + 1] {
      assert p == dir[..k + 1][..|p|] == dir[..k][..|p|];
    }
    if Leads(p, dir[..k]) {
      assert p == dir[..k][..|p|] == dir[..k + 1][..|p|];
    }
  }

  /** One path of the loop, when its source is there. */
  lemma WayIsFree(tree: Tree, now: Tree, paths: seq<string>, i: int, clean: string -> string, inodeOf: Path -> Inode)
    requires Rooted(tree) && 0 <= i < |paths| && Staged(tree, now, paths[..i], inodeOf)
    requires forall k :: 0 <= k <= i ==> Stageable(tree, paths[k], clean)
    ensures forall d :: Leads(d, Target(paths[i])) && d != Target(paths[i]) && d in now ==>
              now[d] == Directory(inodeOf(d)) && IsNewDir(paths[..i], d)
    ensures Target(paths[i]) in now <==> exists k :: 0 <= k < i && paths[k] == paths[i]
  {
    hide Stageable, Split, Staged;
    forall d | Leads(d, Target(paths[i])) && d != Target(paths[i]) && d in now
      ensures now[d] == Directory(inodeOf(d)) && IsNewDir(paths[..i], d)
    {
      InNow(tree, now, paths[..i], inodeOf, d);
      if IsTarget(paths[..i], d) {
        var k :| 0 <= k < i && d == Target(paths[..i][k]);
        NotOnTheWay(tree, paths[k], paths[i], clean);
      }
    }
    if Target(paths[i]) in now {
      InNow(tree, now, paths[..i], inodeOf, Target(paths[i]));
      if IsNewDir(paths[..i], Target(paths[i])) {
        var k :| 0 <= k < i && Leads(Target(paths[i]), Target(paths[..i][k]))
                 && Target(paths[i]) != Target(paths[..i][k]);
        NotOnTheWay(tree, paths[i], paths[k], clean);
      } else {
        var k :| 0 <= k < i && Target(paths[i]) == Target(paths[..i][k]);
        TargetInjective(paths[i], paths[k]);
      }
    }
    if k :| 0 <= k < i && paths[k] == paths[i] {
      assert paths[..i][k] == paths[i];
      StagedTarget(tree, now, paths[..i], inodeOf, k);
    }
  }

  /** Below `payload` there are only new directories and targets. */
  lemma InNow(tree: Tree, now: Tree, paths: seq<string>, inodeOf: Path -> Inode, p: Path)
    requires Staged(tree, now, paths, inodeOf) && p in now && InPayload(p)
    ensures IsNewDir(paths, p) || IsTarget(paths, p)
    ensures IsNewDir(paths, p) ==> now[p] == Directory(inodeOf(p))
  {
  }

  lemma StagedTarget(tree: Tree, now: Tree, paths: seq<string>, inodeOf: Path -> Inode, k: int)
    requires Staged(tree, now, paths, inodeOf) && 0 <= k < |paths|
    ensures Target(paths[k]) in now
  {
  }

  lemma NewDirNext(paths: seq<string>, i: int, d: Path)
    requires 0 <= i < |paths|
    ensures IsNewDir(paths[..i + 1], d) <==>
              IsNewDir(paths[..i], d) || (Leads(d, Target(paths[i])) && d != Target(paths[i]))
    ensures IsTarget(paths[..i + 1], d) <==> IsTarget(paths[..i], d) || d == Target(paths[i])
  {
    hide Target;
    assert paths[..i + 1][i] == paths[i];
    assert forall k :: 0 <= k < i ==> paths[..i + 1][k] == paths[..i][k];
  }

  lemma SourceStays(tree: Tree, now: Tree, paths: seq<string>, inodeOf: Path -> Inode, path: string)
    requires Staged(tree, now, paths, inodeOf)
    ensures Source(path) in now <==> Source(path) in tree
    ensures Source(path) in tree ==> now[Source(path)] == tree[Source(path)]
  {
  }

  lemma ClearedStaged(tree: Tree, inodeOf: Path -> Inode)
    ensures Staged(tree, Cleared(tree)[["payload"] := Directory(inodeOf(["payload"]))], [], inodeOf)
  {
  }

  lemma LeadsParent(p: Path, d: Path)
    requires p != []
    ensures Leads(d, p[..|p| - 1]) <==> Leads(d, p) && d != p
  {
    LeadsNext(p, |p| - 1, d);
    assert p[..|p|] == p;
    LeadsShort(p, |p| - 1);
  }

  function Parent(path: string): Path {
    var target := Target(path);
    target[..|target| - 1]
  }

  lemma ParentLeads(path: string, d: Path)
    ensures Leads(d, Parent(path)) <==> Leads(d, Target(path)) && d != Target(path)
    ensures Leads(d, Target(path)) ==> InPayload(d)
  {
    LeadsParent(Target(path), d);
  }

  /** What one more path adds to the two sets. */
  lemma MoreNext(paths: seq<string>, i: int)
    requires 0 <= i < |paths|
    ensures forall d :: IsNewDir(paths[..i + 1], d) <==> IsNewDir(paths[..i], d) || Leads(d, Parent(paths[i]))
    ensures forall d :: IsTarget(paths[..i + 1], d) <==> IsTarget(paths[..i], d) || d == Target(paths[i])
    ensures forall d :: Leads(d, Parent(paths[i])) ==> InPayload(d)
    ensures !Leads(Target(paths[i]), Parent(paths[i])) && InPayload(Target(paths[i]))
  {
    hide Leads, IsNewDir, IsTarget, Parent, Target, InPayload;
    forall d
      ensures IsNewDir(paths[..i + 1], d) <==> IsNewDir(paths[..i], d) || Leads(d, Parent(paths[i]))
      ensures IsTarget(paths[..i + 1], d) <==> IsTarget(paths[..i], d) || d == Target(paths[i])
      ensures Leads(d, Parent(paths[i])) ==> InPayload(d)
    {
      NewDirNext(paths, i, d);
      ParentLeads(paths[i], d);
    }
    ParentLeads(paths[i], Target(paths[i]));
    TargetInPayload(paths[i]);
  }

  lemma TargetInPayload(path: string)
    ensures InPayload(Target(path)) && !InPayload(Source(path))
  {
  }

  lemma MadeKeys(tree: Tree, tree': Tree, dir: Path, inodeOf: Path -> Inode, p: Path)
    requires Made(tree, tree', dir, inodeOf)
    ensures p in tree' <==> p in tree || Leads(p, dir)
  {
  }

  lemma StagedNext(tree: Tree, now: Tree, way: Tree, paths: seq<string>, i: int, inodeOf: Path -> Inode)
    requires 0 <= i < |paths| && Staged(tree, now, paths[..i], inodeOf) && Source(paths[i]) in tree
    requires Target(paths[i]) !in now && Made(now, way, Parent(paths[i]), inodeOf)
    requires forall d :: Leads(d, Parent(paths[i])) && d in now ==> now[d] == Directory(inodeOf(d))
    ensures Staged(tree, way[Target(paths[i]) := tree[Source(paths[i])]], paths[..i + 1], inodeOf)
  {
    hide Leads, Target, Source, Parent, IsNewDir, IsTarget, InPayload;
    MoreNext(paths, i);
    assert forall k :: 0 <= k < i ==> paths[..i + 1][k] == paths[..i][k];
  }

  /** Succeeds exactly for safe, distinct paths of regular files in a directory without symbolic links. */
  method Stage(tree: Tree, paths: seq<string>, clean: string -> string, inodeOf: Path -> Inode)
    returns (r: Option<Tree>)
    requires Rooted(tree)
    ensures r.Some? <==> NoLinks(tree) && AllStageable(tree, paths, clean)
    ensures r.Some? ==> Staged(tree, r.value, paths, inodeOf)
  {
    hide Stageable, Staged, SafeRelative, Leads, Target, Source, Parent, Made, IsNewDir, Cleared;
    if p :| p in tree && tree[p].Link? {
      return None;
    }
    var now := Cleared(tree)[["payload"] := Directory(inodeOf(["payload"]))];
    ClearedStaged(tree, inodeOf);
    for i := 0 to |paths|
      invariant Staged(tree, now, paths[..i], inodeOf)
      invariant forall k :: 0 <= k < i ==> Stageable(tree, paths[k], clean)
      invariant forall k, j :: 0 <= k < j < i ==> paths[k] != paths[j]
    {
      var path := paths[i];
      SourceStays(tree, now, paths[..i], inodeOf, path);
      StageableParts(tree, path, clean);
      if !SafeRelative(path, clean) {
        return None;
      }
      if Source(path) !in now || !now[Source(path)].File? {
        return None;
      }
      WayIsFree(tree, now, paths, i, clean, inodeOf);
      forall d | Leads(d, Parent(path)) && d in now ensures now[d] == Directory(inodeOf(d)) {
        ParentLeads(path, d);
      }
      var way := MakeAll(now, Parent(path), inodeOf);
      if way == None {
        return None;
      }
      MadeKeys(now, way.value, Parent(path), inodeOf, Target(path));
      ParentLeads(path, Target(path));
      if Target(path) in way.value {
        return None;
      }
      StagedNext(tree, now, way.value, paths, i, inodeOf);
      now := way.value[Target(path) := now[Source(path)]];
    }
    assert paths[..|paths|] == paths;
    r := Some(now);
  }

  lemma StageableParts(tree: Tree, path: string, clean: string -> string)
    ensures Stageable(tree, path, clean) <==>
              SafeRelative(path, clean) && Source(path) in tree && tree[Source(path)].File?
  {
  }

  /** The files to upload are the selected ones, and they are the downloaded ones. */
  lemma OnlySelected(tree: Tree, tree': Tree, paths: seq<string>, clean: string -> string, inodeOf: Path -> Inode)
    requires Rooted(tree) && AllStageable(tree, paths, clean) && Staged(tree, tree', paths, inodeOf)
    ensures forall p :: p in tree' && InPayload(p) ==> (tree'[p].File? <==> IsTarget(paths, p)) && !tree'[p].Link?
    ensures forall i :: 0 <= i < |paths| ==> tree'[Target(paths[i])] == tree'[Source(paths[i])]
    ensures forall i :: 0 <= i < |paths| ==>
              var from, to := ["torrent"] + Split(paths[i]), ["payload"] + Split(paths[i]);
              from in tree && to in tree' && tree'[to] == tree[from]
  {
    hide SafeRelative, Split;
    forall p | p in tree' && InPayload(p)
      ensures (tree'[p].File? <==> IsTarget(paths, p)) && !tree'[p].Link?
    {
      InNow(tree, tree', paths, inodeOf, p);
      if IsTarget(paths, p) {
        var i :| 0 <= i < |paths| && p == Target(paths[i]);
        assert Stageable(tree, paths[i], clean);
      }
    }
    forall i | 0 <= i < |paths| ensures tree'[Target(paths[i])] == tree'[Source(paths[i])] {
      SourceStays(tree, tree', paths, inodeOf, paths[i]);
    }
  }

  // ------------------------------------------------------------------- the bytes on disk

  function InodesOf(tree: Tree): set<Inode> {
    set p | p in tree :: tree[p].inode
  }

  /** A walk over everything that is there. */
  ghost predicate Walks(walk: seq<Entry>, tree: Tree) {
    Readable(walk) && Inodes(walk) == InodesOf(tree)
  }

  ghost function MadeInodes(tree': Tree, paths: seq<string>, inodeOf: Path -> Inode): set<Inode> {
    set d | d in tree' && IsNewDir(paths, d) :: inodeOf(d)
  }

  /** The links add no inode, the directories add theirs. */
  lemma StagedInodes(tree: Tree, tree': Tree, paths: seq<string>, inodeOf: Path -> Inode)
    requires Staged(tree, tree', paths, inodeOf)
    ensures InodesOf(tree') == InodesOf(Cleared(tree)) + MadeInodes(tree', paths, inodeOf)
  {
    hide IsNewDir, Target, Source;
    forall p | p in tree' ensures tree'[p].inode in InodesOf(Cleared(tree)) + MadeInodes(tree', paths, inodeOf) {
      if p !in Cleared(tree) && IsTarget(paths, p) && !IsNewDir(paths, p) {
        var i :| 0 <= i < |paths| && p == Target(paths[i]);
        TargetInPayload(paths[i]);
        assert Source(paths[i]) in Cleared(tree);
      }
    }
    forall p | p in Cleared(tree) ensures tree[p].inode in InodesOf(tree') {
      assert p in tree' && tree'[p].inode == tree[p].inode;
    }
    forall d | d in tree' && IsNewDir(paths, d) ensures inodeOf(d) in InodesOf(tree') {
      assert tree'[d].inode == inodeOf(d);
    }
  }

  /** What the removal of an earlier `payload` gives back: the inodes that nothing else refers to. */
  function GoneInodes(tree: Tree): set<Inode> {
    InodesOf(tree) - InodesOf(Cleared(tree))
  }

  lemma ClearedInodes(tree: Tree)
    ensures InodesOf(Cleared(tree)) <= InodesOf(tree)
    ensures InodesOf(tree) == InodesOf(Cleared(tree)) + GoneInodes(tree)
  {
    forall p | p in Cleared(tree) ensures tree[p].inode in InodesOf(tree) {
    }
  }

  lemma SameBlocks(inodes: set<Inode>, blocks: Inode -> int64, blocks': Inode -> int64)
    requires forall i :: i in inodes ==> blocks'(i) == blocks(i)
    ensures BlockSum(inodes, blocks') == BlockSum(inodes, blocks)
  {
    assert (map i | i in inodes :: blocks'(i) as int) == (map i | i in inodes :: blocks(i) as int);
  }

  /**
   Staging adds the blocks of the new directories to what the job has allocated,
   and takes away those of an earlier `payload` that were not links to something
   else. `blocks` and `blocks'` are the counts before and after; numbers of inodes
   that are gone may be used again.
   */
  lemma StagingCost(tree: Tree, tree': Tree, paths: seq<string>, inodeOf: Path -> Inode,
                    walk: seq<Entry>, walk': seq<Entry>, blocks: Inode -> int64, blocks': Inode -> int64)
    requires Staged(tree, tree', paths, inodeOf) && Walks(walk, tree) && Walks(walk', tree')
    requires forall d :: IsNewDir(paths, d) ==> inodeOf(d) !in InodesOf(Cleared(tree))
    requires forall i :: i in InodesOf(Cleared(tree)) ==> blocks'(i) == blocks(i)
    requires Allocated(walk, blocks).Some?
    ensures var made, gone := MadeInodes(tree', paths, inodeOf), GoneInodes(tree);
            var before := Allocated(walk, blocks).value as int;
            var after := before + 512 * BlockSum(made, blocks') - 512 * BlockSum(gone, blocks);
            && (Allocated(walk', blocks').Some? <==>
                  (forall i :: i in made ==> 0 <= blocks'(i)) && after <= MAX_INT64)
            && (Allocated(walk', blocks').Some? ==> Allocated(walk', blocks').value as int == after)
  {
    hide Staged, IsNewDir, BlockSum, Cleared, Readable, GoneInodes;
    var made, kept := MadeInodes(tree', paths, inodeOf), InodesOf(Cleared(tree));
    StagedInodes(tree, tree', paths, inodeOf);
    ClearedInodes(tree);
    BlockSumUnion(kept, made, blocks');
    GoneApart(tree);
    BlockSumUnion(kept, GoneInodes(tree), blocks);
    SameBlocks(kept, blocks, blocks');
  }

  lemma GoneApart(tree: Tree)
    ensures InodesOf(Cleared(tree)) !! GoneInodes(tree)
  {
  }
}
