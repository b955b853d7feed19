/**
 A local directory tree as the upload sees it: slash-separated absolute paths as
 strings, the pre-order walk over the tree, and the sizes of its directories.
 */
module UploadTree {
  import opened Paths
  import opened Wrappers

  // ------------------------------------------------------------------------- paths

  predicate IsName(n: string) {
    n != "" && '/' !in n
  }

  /** An absolute path other than "/", without a slash at the end. */
  predicate IsRoot(p: string) {
    |p| > 1 && p[0] == '/' && p[|p| - 1] != '/'
  }

  /** The path of an entry of directory `p`. */
  function Join(p: string, n: string): string {
    p + "/" + n
  }

  /** The order in which Go compares strings. */
  predicate Less(a: string, b: string) {
    b != "" && (a == "" || a[0] < b[0] || (a[0] == b[0] && Less(a[1..], b[1..])))
  }

  /** `p` is `d` or lies below it. */
  predicate Inside(d: string, p: string) {
    p == d || (|d| < |p| && p[..|d|] == d && p[|d|] == '/')
  }

  lemma {:induction false} PrefixLess(a: string, b: string)
    requires |a| < |b| && b[..|a|] == a
    ensures Less(a, b)
  {
    if a != "" {
      assert b[1..][..|a| - 1] == b[..|a|][1..];
      PrefixLess(a[1..], b[1..]);
    }
  }

  lemma {:induction false} ExtensionNotLess(a: string, b: string)
    requires |b| <= |a| && a[..|b|] == b
    ensures !Less(a, b)
  {
    if b != "" {
      assert a[1..][..|b| - 1] == a[..|b|][1..];
      ExtensionNotLess(a[1..], b[1..]);
    }
  }

  lemma DirJoin(p: string, n: string)
    requires p != "" && IsName(n)
    ensures Dir(Join(p, n)) == p
  {
    var q := Join(p, n);
    assert q[|p|] == '/';
    assert forall k :: |p| < k < |q| ==> q[k] == n[k - |p| - 1];
  }

  lemma DirInside(r: string, q: string)
    requires r != "" && Inside(r, q) && q != r
    ensures Inside(r, Dir(q)) && |Dir(q)| < |q|
  {
  }

  lemma InsideTrans(a: string, b: string, c: string)
    requires Inside(a, b) && Inside(b, c)
    ensures Inside(a, c)
  {
  }

  lemma JoinInside(p: string, n: string)
    ensures Inside(p, Join(p, n)) && Join(p, n) != p
  {
    assert Join(p, n)[..|p|] == p;
  }

  /** What stands before the first slash. */
  function Head(s: string): string {
    if s == "" || s[0] == '/' then "" else [s[0]] + Head(s[1..])
  }

  lemma {:induction false} HeadOf(a: string, s: string)
    requires '/' !in a && |a| <= |s| && s[..|a|] == a && (|s| == |a| || s[|a|] == '/')
    ensures Head(s) == a
  {
    if a != "" {
      assert s[1..][..|a| - 1] == s[..|a|][1..];
      HeadOf(a[1..], s[1..]);
    }
  }

  /** The path tells below which entry of `p` it is. */
  lemma EntryOf(p: string, a: string, x: string)
    requires IsName(a) && Inside(Join(p, a), x)
    ensures |p| < |x| && Head(x[|p| + 1..]) == a
  {
    var i := |p| + 1;
    assert x[..i + |a|] == Join(p, a);
    assert x[i..][..|a|] == x[..i + |a|][i..];
    HeadOf(a, x[i..]);
  }

  /** Nothing is below two entries of one directory. */
  lemma SiblingsApart(p: string, a: string, b: string, x: string)
    requires IsName(a) && IsName(b) && a != b && Inside(Join(p, a), x)
    ensures !Inside(Join(p, b), x)
  {
    EntryOf(p, a, x);
    if Inside(Join(p, b), x) {
      EntryOf(p, b, x);
    }
  }

  lemma InsideOwnDir(r: string, q: string)
    requires r != "" && Inside(r, q) && q != r
    ensures Inside(Dir(q), q)
  {
    var i := LastSlash(q);
    assert i >= |r| >= 1;
  }

  /** One step further up, the loop has left `r` for good. */
  lemma DirAbove(r: string)
    requires IsRoot(r)
    ensures |Dir(r)| < |r| && Less(Dir(r), r) && !Inside(r, Dir(r))
  {
    var i := LastSlash(r);
    assert r[..i] == "" ==> i == 0;
    PrefixLess(Dir(r), r);
  }

  function DirUp(p: string, k: nat): string
    decreases k
  {
    if k == 0 then p else DirUp(Dir(p), k - 1)
  }

  /** After `k` steps the loop of the first walk stops. */
  predicate Stops(r: string, p: string, k: nat) {
    Less(DirUp(p, k), r)
  }

  lemma {:induction false} DirUpAbsolute(p: string, k: nat)
    requires p != "" && p[0] == '/'
    ensures DirUp(p, k) != "" && DirUp(p, k)[0] == '/'
    decreases k
  {
    if k > 0 {
      DirUpAbsolute(Dir(p), k - 1);
    }
  }

  lemma {:induction false} DirUpLeaves(r: string, p: string) returns (k: nat)
    requires IsRoot(r) && Inside(r, p)
    ensures Stops(r, p, k)
    decreases |p|
  {
    if p == r {
      DirAbove(r);
      assert DirUp(p, 1) == DirUp(Dir(p), 0);
      k := 1;
    } else {
      DirInside(r, p);
      var j := DirUpLeaves(r, Dir(p));
      k := j + 1;
    }
  }

  /** Walking up while the path is not less than `r` ends, unless `r` is "/". */
  lemma SizeLoopEnds(r: string, p: string)
    requires p != "" && p[0] == '/' && (r == "/" || (IsRoot(r) && Inside(r, p)))
    ensures (exists k :: Stops(r, p, k)) <==> r != "/"
  {
    if r == "/" {
      forall k ensures !Stops(r, p, k) {
        DirUpAbsolute(p, k);
        assert DirUp(p, k)[..1] == r;
        ExtensionNotLess(DirUp(p, k), r);
      }
    } else {
      var k := DirUpLeaves(r, p);
      assert Stops(r, p, k);
    }
  }

  // ------------------------------------------------------------------------- trees

  datatype Node = File(size: nat) | Directory(kids: Kids)

  datatype Kids = Nil | Cons(name: string, node: Node, rest: Kids)

  predicate HasKid(kids: Kids, name: string) {
    kids.Cons? && (kids.name == name || HasKid(kids.rest, name))
  }

  /** Directory entries have proper names, each once. */
  predicate WellFormed(n: Node) {
    n.Directory? ==> WellFormedKids(n.kids)
  }

  predicate WellFormedKids(kids: Kids) {
    kids.Cons? ==>
      IsName(kids.name) && !HasKid(kids.rest, kids.name) && WellFormed(kids.node) && WellFormedKids(kids.rest)
  }

  /** All bytes of the files below. */
  function Size(n: Node): nat {
    match n
    case File(size) => size
    case Directory(kids) => SizeKids(kids)
  }

  function SizeKids(kids: Kids): nat {
    match kids
    case Nil => 0
    case Cons(_, node, rest) => Size(node) + SizeKids(rest)
  }

  /** One callback of the walk: a path, its last part, and what is there. */
  datatype Entry = Entry(path: string, name: string, node: Node)

  function Walk(n: Node, p: string, name: string): seq<Entry> {
    [Entry(p, name, n)] + if n.Directory? then WalkKids(n.kids, p) else []
  }

  function WalkKids(kids: Kids, p: string): seq<Entry> {
    match kids
    case Nil => []
    case Cons(name, node, rest) => Walk(node, Join(p, name), name) + WalkKids(rest, p)
  }

  /** What is at the end of a list of names. */
  function NodeAt(n: Node, names: seq<string>): Option<Node>
    decreases n
  {
    if names == [] then Some(n) else if n.Directory? then KidAt(n.kids, names) else None
  }

  function KidAt(kids: Kids, names: seq<string>): Option<Node>
    requires names != []
    decreases kids
  {
    match kids
    case Nil => None
    case Cons(name, node, rest) => if name == names[0] then NodeAt(node, names[1..]) else KidAt(rest, names)
  }

  function PathOf(p: string, names: seq<string>): string
    decreases |names|
  {
    if names == [] then p else PathOf(Join(p, names[0]), names[1..])
  }

  /** The walk visits everything. */
  lemma {:induction false} WalkComplete(n: Node, p: string, name: string, names: seq<string>)
    requires NodeAt(n, names).Some?
    ensures exists e :: e in Walk(n, p, name) && e.path == PathOf(p, names) && e.node == NodeAt(n, names).value
    decreases n
  {
    if names == [] {
      assert Walk(n, p, name)[0] == Entry(p, name, n);
    } else {
      KidsComplete(n.kids, p, names);
      var e :| e in WalkKids(n.kids, p) && e.path == PathOf(p, names) && e.node == NodeAt(n, names).value;
      assert e in Walk(n, p, name);
    }
  }

  lemma {:induction false} KidsComplete(kids: Kids, p: string, names: seq<string>)
    requires names != [] && KidAt(kids, names).Some?
    ensures exists e :: e in WalkKids(kids, p) && e.path == PathOf(p, names) && e.node == KidAt(kids, names).value
    decreases kids
  {
    if kids.name == names[0] {
      WalkComplete(kids.node, Join(p, kids.name), kids.name, names[1..]);
    } else {
      KidsComplete(kids.rest, p, names);
    }
  }

  /** And nothing else. */
  lemma {:induction false} WalkSound(n: Node, p: string, name: string, e: Entry) returns (names: seq<string>)
    requires WellFormed(n) && e in Walk(n, p, name)
    ensures NodeAt(n, names) == Some(e.node) && e.path == PathOf(p, names)
    ensures e.name == if names == [] then name else names[|names| - 1]
    decreases n
  {
    if e == Entry(p, name, n) {
      names := [];
    } else {
      names := KidsSound(n.kids, p, e);
    }
  }

  lemma {:induction false} KidsSound(kids: Kids, p: string, e: Entry) returns (names: seq<string>)
    requires WellFormedKids(kids) && e in WalkKids(kids, p)
    ensures names != [] && KidAt(kids, names) == Some(e.node) && e.path == PathOf(p, names)
    ensures e.name == names[|names| - 1] && HasKid(kids, names[0])
    decreases kids
  {
    if e in Walk(kids.node, Join(p, kids.name), kids.name) {
      var below := WalkSound(kids.node, Join(p, kids.name), kids.name, e);
      names := [kids.name] + below;
      assert names[1..] == below;
    } else {
      names := KidsSound(kids.rest, p, e);
    }
  }

  lemma {:induction false} WalkInside(n: Node, p: string, name: string, e: Entry)
    requires e in Walk(n, p, name)
    ensures Inside(p, e.path)
    decreases n
  {
    if n.Directory? && e in WalkKids(n.kids, p) {
      WalkKidsInside(n.kids, p, e);
    }
  }

  /** Every entry belongs to one of the kids. */
  lemma {:induction false} WalkKidsInside(kids: Kids, p: string, e: Entry)
    requires e in WalkKids(kids, p)
    ensures Inside(p, e.path) && e.path != p
    ensures exists k :: HasKid(kids, k) && Inside(Join(p, k), e.path)
    decreases kids
  {
    if e in Walk(kids.node, Join(p, kids.name), kids.name) {
      WalkInside(kids.node, Join(p, kids.name), kids.name, e);
      JoinInside(p, kids.name);
      InsideTrans(p, Join(p, kids.name), e.path);
      assert HasKid(kids, kids.name);
    } else {
      WalkKidsInside(kids.rest, p, e);
      var k :| HasKid(kids.rest, k) && Inside(Join(p, k), e.path);
      assert HasKid(kids, k);
    }
  }

  lemma {:induction false} HasKidName(kids: Kids, k: string)
    requires WellFormedKids(kids) && HasKid(kids, k)
    ensures IsName(k)
  {
    if k != kids.name {
      HasKidName(kids.rest, k);
    }
  }

  /** The first entry of a directory and the later ones are apart. */
  lemma HeadAndRestApart(kids: Kids, p: string, e: Entry, f: Entry)
    requires kids.Cons? && WellFormedKids(kids)
    requires e in Walk(kids.node, Join(p, kids.name), kids.name) && f in WalkKids(kids.rest, p)
    ensures !Inside(e.path, f.path) && !Inside(f.path, e.path)
  {
    var own := Join(p, kids.name);
    WalkInside(kids.node, own, kids.name, e);
    WalkKidsInside(kids.rest, p, f);
    var k :| HasKid(kids.rest, k) && Inside(Join(p, k), f.path);
    HasKidName(kids.rest, k);
    if Inside(e.path, f.path) {
      InsideTrans(own, e.path, f.path);
      SiblingsApart(p, kids.name, k, f.path);
    }
    if Inside(f.path, e.path) {
      InsideTrans(Join(p, k), f.path, e.path);
      SiblingsApart(p, kids.name, k, e.path);
    }
  }

  // ------------------------------------------------------------- order of the walk

  ghost predicate DistinctPaths(es: seq<Entry>) {
    forall i, k :: 0 <= i < k < |es| ==> es[i].path != es[k].path
  }

  /** Every entry but those of `p` itself comes after the directory it is in. */
  ghost predicate DirsFirst(es: seq<Entry>, p: string) {
    forall i :: 0 <= i < |es| ==>
      es[i].path == Join(Dir(es[i].path), es[i].name) && IsName(es[i].name)
      && (Dir(es[i].path) == p
          || exists k :: 0 <= k < i && es[k].path == Dir(es[i].path) && es[k].node.Directory?)
  }

  lemma DirsFirstConcat(a: seq<Entry>, b: seq<Entry>, p: string)
    requires DirsFirst(a, p) && DirsFirst(b, p)
    ensures DirsFirst(a + b, p)
  {
    var es := a + b;
    forall i | 0 <= i < |es| && Dir(es[i].path) != p
      ensures exists k :: 0 <= k < i && es[k].path == Dir(es[i].path) && es[k].node.Directory?
    {
      if i < |a| {
        var k :| 0 <= k < i && a[k].path == Dir(a[i].path) && a[k].node.Directory?;
        assert es[k] == a[k];
      } else {
        var j := i - |a|;
        var k :| 0 <= k < j && b[k].path == Dir(b[j].path) && b[k].node.Directory?;
        assert es[|a| + k] == b[k];
      }
    }
  }

  /** The walk below one entry of `p`. */
  lemma DirsFirstEntry(e: Entry, es: seq<Entry>, p: string)
    requires p != "" && IsName(e.name) && e.path == Join(p, e.name) && e.node.Directory?
    requires DirsFirst(es, e.path)
    ensures DirsFirst([e] + es, p)
  {
    var all := [e] + es;
    DirJoin(p, e.name);
    forall i | 0 <= i < |all|
      ensures all[i].path == Join(Dir(all[i].path), all[i].name) && IsName(all[i].name)
      ensures Dir(all[i].path) == p
              || exists k :: 0 <= k < i && all[k].path == Dir(all[i].path) && all[k].node.Directory?
    {
      if i > 0 {
        var d := Dir(es[i - 1].path);
        if d == e.path {
          assert all[0] == e;
        } else {
          var k :| 0 <= k < i - 1 && es[k].path == d && es[k].node.Directory?;
          assert all[k + 1] == es[k];
        }
      }
    }
  }

  lemma DistinctConcat(a: seq<Entry>, b: seq<Entry>)
    requires DistinctPaths(a) && DistinctPaths(b)
    requires forall e, f :: e in a && f in b ==> e.path != f.path
    ensures DistinctPaths(a + b)
  {
  }

  lemma {:induction false} WalkOrder(n: Node, p: string, name: string)
    requires p != "" && IsName(name) && WellFormed(n)
    ensures DistinctPaths(Walk(n, Join(p, name), name)) && DirsFirst(Walk(n, Join(p, name), name), p)
    decreases n, 1
  {
    var own := Join(p, name);
    var head := Entry(own, name, n);
    DirJoin(p, name);
    if n.Directory? {
      var below := WalkKids(n.kids, own);
      WalkKidsOrder(n.kids, own);
      DirsFirstEntry(head, below, p);
      forall e | e in below ensures e.path != own {
        WalkKidsInside(n.kids, own, e);
      }
      DistinctConcat([head], below);
    }
  }

  lemma {:induction false} WalkKidsOrder(kids: Kids, p: string)
    requires p != "" && WellFormedKids(kids)
    ensures DistinctPaths(WalkKids(kids, p)) && DirsFirst(WalkKids(kids, p), p)
    decreases kids, 0
  {
    if kids.Cons? {
      var own := Join(p, kids.name);
      var first, rest := Walk(kids.node, own, kids.name), WalkKids(kids.rest, p);
      WalkOrder(kids.node, p, kids.name);
      WalkKidsOrder(kids.rest, p);
      hide DirsFirst, DistinctPaths;
      DirsFirstConcat(first, rest, p);
      forall e, f | e in first && f in rest ensures e.path != f.path {
        HeadAndRestApart(kids, p, e, f);
      }
      DistinctConcat(first, rest);
    }
  }

  // --------------------------------------------------------------------------- sizes

  function FileSize(n: Node): nat {
    if n.File? then n.size else 0
  }

  /** The bytes of the visited files that lie in directory `d` or below. */
  function Under(es: seq<Entry>, d: string): nat {
    if es == [] then 0
    else
      var e := es[|es| - 1];
      Under(es[..|es| - 1], d) + if Inside(d, Dir(e.path)) then FileSize(e.node) else 0
  }

  lemma {:induction false} UnderPrefix(es: seq<Entry>, k: int, d: string)
    requires 0 <= k <= |es|
    ensures Under(es[..k], d) <= Under(es, d)
  {
    if k < |es| {
      UnderPrefix(es[..|es| - 1], k, d);
      assert es[..|es| - 1][..k] == es[..k];
    } else {
      assert es[..k] == es;
    }
  }

  lemma {:induction false} UnderNested(es: seq<Entry>, r: string, d: string)
    requires Inside(r, d)
    ensures Under(es, d) <= Under(es, r)
  {
    if es != [] {
      UnderNested(es[..|es| - 1], r, d);
      var q := Dir(es[|es| - 1].path);
      if Inside(d, q) {
        InsideTrans(r, d, q);
      }
    }
  }

  /** No partial sum of any directory exceeds the size of the whole tree. */
  lemma SizesFit(es: seq<Entry>, r: string, d: string, k: int)
    requires Inside(r, d) && 0 <= k <= |es|
    ensures Under(es[..k], d) <= Under(es, d) <= Under(es, r)
  {
    UnderPrefix(es, k, d);
    UnderNested(es, r, d);
  }

  lemma {:induction false} UnderConcat(a: seq<Entry>, b: seq<Entry>, d: string)
    ensures Under(a + b, d) == Under(a, d) + Under(b, d)
  {
    if b == [] {
      assert a + b == a;
    } else {
      assert (a + b)[..|a + b| - 1] == a + b[..|b| - 1];
      UnderConcat(a, b[..|b| - 1], d);
    }
  }

  lemma {:induction false} UnderNone(es: seq<Entry>, d: string)
    requires forall e :: e in es && e.node.File? ==> !Inside(d, Dir(e.path))
    ensures Under(es, d) == 0
  {
    if es != [] {
      UnderNone(es[..|es| - 1], d);
    }
  }

  /** From above, a walk counts everything. */
  lemma {:induction false} UnderAll(kids: Kids, p: string, d: string)
    requires p != "" && WellFormedKids(kids) && Inside(d, p)
    ensures Under(WalkKids(kids, p), d) == SizeKids(kids)
    decreases kids
  {
    if kids.Cons? {
      var own := Join(p, kids.name);
      var e := Entry(own, kids.name, kids.node);
      DirJoin(p, kids.name);
      JoinInside(p, kids.name);
      InsideTrans(d, p, own);
      hide Inside, Dir;
      UnderAll(kids.rest, p, d);
      var below := if kids.node.Directory? then WalkKids(kids.node.kids, own) else [];
      if kids.node.Directory? {
        UnderAll(kids.node.kids, own, d);
      }
      UnderConcat([e], below, d);
      UnderConcat([e] + below, WalkKids(kids.rest, p), d);
      UnderOne(e, d);
    }
  }

  lemma UnderOne(e: Entry, d: string)
    ensures Under([e], d) == if Inside(d, Dir(e.path)) then FileSize(e.node) else 0
  {
    assert [e][..0] == [];
  }

  lemma NotBelow(kids: Kids, p: string, d: string, f: Entry)
    requires p != "" && WellFormedKids(kids) && f in WalkKids(kids, p) && !Inside(d, f.path)
    ensures !Inside(d, Dir(f.path))
  {
    WalkKidsOrder(kids, p);
    JoinInside(Dir(f.path), f.name);
    if Inside(d, Dir(f.path)) {
      InsideTrans(d, Dir(f.path), f.path);
    }
  }

  /** The size loop gives every directory of the walk its own size. */
  lemma {:induction false} WalkKidsSizes(kids: Kids, p: string, e: Entry)
    requires p != "" && WellFormedKids(kids) && e in WalkKids(kids, p) && e.node.Directory?
    ensures Under(WalkKids(kids, p), e.path) == Size(e.node)
    decreases kids
  {
    var own := Join(p, kids.name);
    var first, rest := Walk(kids.node, own, kids.name), WalkKids(kids.rest, p);
    UnderConcat(first, rest, e.path);
    hide Under, Inside, Dir;
    if e in first {
      forall f | f in rest && f.node.File? ensures !Inside(e.path, Dir(f.path)) {
        HeadAndRestApart(kids, p, e, f);
        NotBelow(kids, p, e.path, f);
      }
      UnderNone(rest, e.path);
      WalkSizes(kids.node, own, kids.name, e);
    } else {
      WalkKidsSizes(kids.rest, p, e);
      forall f | f in first && f.node.File? ensures !Inside(e.path, Dir(f.path)) {
        HeadAndRestApart(kids, p, f, e);
        NotBelow(kids, p, e.path, f);
      }
      UnderNone(first, e.path);
    }
  }

  lemma {:induction false} WalkSizes(n: Node, p: string, name: string, e: Entry)
    requires p != "" && WellFormed(n) && e in Walk(n, p, name) && e.node.Directory?
    ensures Under(Walk(n, p, name), e.path) == Size(e.node)
    decreases n
  {
    var head := Entry(p, name, n);
    var below := WalkKids(n.kids, p);
    UnderConcat([head], below, e.path);
    UnderOne(head, e.path);
    if e in below {
      WalkKidsSizes(n.kids, p, e);
    } else {
      UnderAll(n.kids, p, p);
    }
  }

  function Get(sizes: map<string, int>, d: string): int {
    if d in sizes then sizes[d] else 0
  }

  /** One file's size goes to its directory and everything above, up to `r`. */
  method AddUpwards(sizes0: map<string, int>, r: string, q: string, size: int) returns (sizes: map<string, int>)
    requires IsRoot(r) && Inside(r, q)
    ensures forall d :: Inside(r, d) ==> Get(sizes, d) == Get(sizes0, d) + if Inside(d, q) then size else 0
    ensures forall d :: !Inside(r, d) ==> Get(sizes, d) == Get(sizes0, d)
  {
    sizes := sizes0;
    var current := q;
    ExtensionNotLess(q, r);
    while !Less(current, r)
      invariant Inside(r, current) || (current == Dir(r) && Less(current, r))
      invariant forall d :: Inside(r, d) ==>
        Get(sizes, d) == Get(sizes0, d) + if Inside(d, q) && !Inside(d, current) then size else 0
      invariant forall d :: !Inside(r, d) ==> Get(sizes, d) == Get(sizes0, d)
      invariant Inside(current, q) || current == Dir(r)
      decreases |current|
    {
      AboveCurrent(r, q, current);
      sizes := sizes[current := Get(sizes, current) + size];
      current := Dir(current);
    }
    if Inside(r, current) {
      ExtensionNotLess(current, r);
    }
    forall d | Inside(r, d) ensures !Inside(d, current) {
      DirAbove(r);
      if Inside(d, current) {
        InsideTrans(r, d, current);
      }
    }
  }

  /** Going up leaves exactly one directory behind. */
  lemma AboveCurrent(r: string, q: string, current: string)
    requires IsRoot(r) && Inside(r, current) && Inside(current, q)
    ensures |Dir(current)| < |current|
    ensures if current == r then Less(Dir(r), r)
            else Inside(r, Dir(current)) && Inside(Dir(current), q) && !Less(Dir(current), r)
    ensures forall d :: Inside(r, d) ==> (Inside(d, current) <==> d == current || Inside(d, Dir(current)))
  {
    DirAbove(r);
    if current != r {
      DirInside(r, current);
      InsideOwnDir(r, current);
      InsideTrans(Dir(current), current, q);
      ExtensionNotLess(Dir(current), r);
    }
    forall d | Inside(r, d) ensures Inside(d, current) <==> d == current || Inside(d, Dir(current)) {
      if Inside(d, current) && d != current {
        DirInside(d, current);
      }
      if Inside(d, Dir(current)) {
        if current == r {
          InsideTrans(r, d, Dir(r));
        } else {
          InsideTrans(d, Dir(current), current);
        }
      }
    }
  }

  /** The first walk. */
  method DirSizes(es: seq<Entry>, r: string) returns (sizes: map<string, int>)
    requires IsRoot(r) && forall e :: e in es && e.node.File? ==> Inside(r, Dir(e.path))
    ensures forall d :: Inside(r, d) ==> Get(sizes, d) == Under(es, d)
  {
    sizes := map[];
    for k := 0 to |es|
      invariant forall d :: Inside(r, d) ==> Get(sizes, d) == Under(es[..k], d)
    {
      assert es[..k + 1][..k] == es[..k];
      if es[k].node.File? {
        sizes := AddUpwards(sizes, r, Dir(es[k].path), es[k].node.size);
      }
    }
    assert es[..|es|] == es;
  }

  /** In the walk of a directory, each directory ends up with its own size. */
  lemma WalkFacts(kids: Kids, r: string, name: string)
    requires IsRoot(r) && WellFormedKids(kids)
    ensures var es := Walk(Directory(kids), r, name);
            && DistinctPaths(es)
            && es[0] == Entry(r, name, Directory(kids))
            && DirsFirst(es[1..], r)
            && (forall e :: e in es && e.node.File? ==> Inside(r, Dir(e.path)))
            && (forall e :: e in es && e.node.Directory? ==> Inside(r, e.path) && Under(es, e.path) == Size(e.node))
  {
    var tree := Directory(kids);
    var es, below := Walk(tree, r, name), WalkKids(kids, r);
    WalkKidsOrder(kids, r);
    assert es[1..] == below;
    forall e | e in below ensures e.path != r && Inside(r, Dir(e.path)) {
      WalkKidsInside(kids, r, e);
      DirInside(r, e.path);
    }
    forall e | e in es && e.node.Directory? ensures Inside(r, e.path) && Under(es, e.path) == Size(e.node) {
      WalkInside(tree, r, name, e);
      WalkSizes(tree, r, name, e);
    }
  }
}
