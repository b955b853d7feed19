/**
 Selections and byte accounting of one job. All sums are over `int64`, whose
 operations Dafny only accepts when no intermediate result leaves the range, so
 every function here is free of wrap-around by construction; the lemmas say
 that the guards reject nothing else.
 */
module Reservation {
  import opened Sums
  import opened Wrappers

  const MAX_INT64 := 0x7FFF_FFFF_FFFF_FFFF
  newtype int64 = x: int | -0x8000_0000_0000_0000 <= x <= 0x7FFF_FFFF_FFFF_FFFF

  const MAX: int64 := 0x7FFF_FFFF_FFFF_FFFF
  const BASE: int64 := 0x100_0000

  // ---------------------------------------------------------------- selections

  predicate Distinct(s: seq<int>) {
    forall i, j :: 0 <= i < j < |s| ==> s[i] != s[j]
  }

  /** A selection the worker accepts for a torrent of `count` files. */
  predicate ValidSelection(s: seq<int>, count: int) {
    s != [] && Distinct(s) && forall i :: 0 <= i < |s| ==> 0 <= s[i] < count
  }

  function Range(count: nat): (r: seq<int>)
    ensures |r| == count && forall i :: 0 <= i < count ==> r[i] == i
  {
    seq(count, i => i)
  }

  /** `None` as selection means every file, an explicit empty list is an error. */
  function SelectedIndexes(selection: Option<seq<int>>, count: nat): Option<seq<int>> {
    match selection
    case None => if count == 0 then None else Some(Range(count))
    case Some(s) => if ValidSelection(s, count) then Some(s) else None
  }

  method SelectedIndexesLoop(selection: Option<seq<int>>, count: nat) returns (r: Option<seq<int>>)
    ensures r == SelectedIndexes(selection, count)
    ensures selection == None ==>
              (r.Some? <==> count > 0)
              && (r.Some? ==> |r.value| == count && forall i :: 0 <= i < count ==> r.value[i] == i)
    ensures selection.Some? ==>
              (r.Some? <==>
                 && selection.value != [] && (forall x :: x in selection.value ==> 0 <= x < count)
                 && forall i, k :: 0 <= i < k < |selection.value| ==> selection.value[i] != selection.value[k])
              && (r.Some? ==> r == selection)
  {
    if selection == None {
      return if count == 0 then None else Some(Range(count));
    }
    var s := selection.value;
    if s == [] {
      return None;
    }
    var seen: set<int> := {};
    for k := 0 to |s|
      invariant seen == set i | 0 <= i < k :: s[i]
      invariant Distinct(s[..k])
      invariant forall i :: 0 <= i < k ==> 0 <= s[i] < count
    {
      if s[k] < 0 || s[k] >= count || s[k] in seen {
        assert s[k] in s;
        if s[k] in seen {
          var i :| 0 <= i < k && s[i] == s[k];
          assert !Distinct(s);
        }
        return None;
      }
      seen := seen + {s[k]};
    }
    assert s[..|s|] == s;
    r := Some(s);
  }

  /** The form values of a selection: `None` where a value is not a number. */
  predicate FormValue(v: Option<int>) {
    v.Some? && 0 <= v.value <= 100000
  }

  /** The position of the first occurrence. */
  function FirstAt(s: seq<int>, x: int): (p: nat)
    requires x in s
    ensures p < |s| && s[p] == x && x !in s[..p]
  {
    var n := |s| - 1;
    assert s == s[..n] + [s[n]];
    if x in s[..n] then
      assert s[..n][..FirstAt(s[..n], x)] == s[..FirstAt(s[..n], x)];
      FirstAt(s[..n], x)
    else n
  }

  /** First occurrences, in order. */
  function Deduplicated(s: seq<int>): (r: seq<int>)
    ensures Distinct(r)
    ensures forall x :: x in r <==> x in s
    ensures forall i, k :: 0 <= i < k < |r| ==> r[i] in s && r[k] in s && FirstAt(s, r[i]) < FirstAt(s, r[k])
  {
    if s == [] then []
    else
      var r := Deduplicated(s[..|s| - 1]);
      var x := s[|s| - 1];
      assert s == s[..|s| - 1] + [x];
      if x in r then r else r + [x]
  }

  /** A list without repetitions is kept as it is. */
  lemma {:induction false} DeduplicatedIdentity(s: seq<int>)
    requires Distinct(s)
    ensures Deduplicated(s) == s
  {
    if s != [] {
      DeduplicatedIdentity(s[..|s| - 1]);
      assert s == s[..|s| - 1] + [s[|s| - 1]];
    }
  }

  function Values(vs: seq<Option<int>>): seq<int>
    requires forall i :: 0 <= i < |vs| ==> FormValue(vs[i])
  {
    seq(|vs|, i requires 0 <= i < |vs| => assert FormValue(vs[i]); vs[i].value)
  }

  ghost function Parsed(values: seq<Option<int>>, k: nat): seq<int>
    requires k <= |values| && forall i :: 0 <= i < k ==> FormValue(values[i])
  {
    Deduplicated(Values(values[..k]))
  }

  lemma ParsedEnds(values: seq<Option<int>>)
    ensures Parsed(values, 0) == []
    ensures (forall i :: 0 <= i < |values| ==> FormValue(values[i])) ==>
              Parsed(values, |values|) == Deduplicated(Values(values))
  {
    assert values[..|values|] == values;
  }

  lemma ParsedStep(values: seq<Option<int>>, k: nat)
    requires k < |values| && FormValue(values[k]) && forall i :: 0 <= i < k ==> FormValue(values[i])
    ensures var before, n := Parsed(values, k), values[k].value;
            Parsed(values, k + 1) == if n in before then before else before + [n]
  {
    var vs := Values(values[..k + 1]);
    assert vs[..k] == Values(values[..k]) && vs[k] == values[k].value;
  }

  method ParseSelection(values: seq<Option<int>>) returns (r: Option<seq<int>>)
    ensures r.Some? <==>
              && 0 < |values| <= 10000
              && forall i :: 0 <= i < |values| ==> values[i].Some? && 0 <= values[i].value <= 100000
    ensures r.Some? ==> r.value == Deduplicated(Values(values))
  {
    hide Parsed, Deduplicated, Distinct, Values;
    if |values| == 0 || |values| > 10000 {
      return None;
    }
    var out, seen := [], {};
    ParsedEnds(values);
    for k := 0 to |values|
      invariant forall i :: 0 <= i < k ==> FormValue(values[i])
      invariant out == Parsed(values, k)
      invariant forall x :: x in seen <==> x in out
    {
      if !FormValue(values[k]) {
        return None;
      }
      var n := values[k].value;
      ParsedStep(values, k);
      if n !in seen {
        seen := seen + {n};
        out := out + [n];
      }
    }
    r := Some(out);
  }

  /** Whatever the form handler accepts, `Add` and the worker accept, unchanged. */
  lemma SelectionPipeline(values: seq<Option<int>>, count: nat)
    requires values != [] && forall i :: 0 <= i < |values| ==> FormValue(values[i]) && values[i].value < count
    ensures var s := Deduplicated(Values(values));
            s != [] && SelectedIndexes(Some(s), count) == Some(s)
  {
    var vs := Values(values);
    var s := Deduplicated(vs);
    assert vs[0] in s;
    forall k | 0 <= k < |s| ensures 0 <= s[k] < count {
      assert s[k] in vs;
      var i :| 0 <= i < |vs| && vs[i] == s[k];
      assert FormValue(values[i]);
    }
  }

  // -------------------------------------------------------------- selected size

  function Total(lengths: seq<int64>): int {
    if lengths == [] then 0 else Total(lengths[..|lengths| - 1]) + lengths[|lengths| - 1] as int
  }

  predicate NonNegative(lengths: seq<int64>) {
    forall i :: 0 <= i < |lengths| ==> 0 <= lengths[i]
  }

  function Pick(lengths: seq<int64>, indexes: seq<int>): (r: seq<int64>)
    requires forall i :: 0 <= i < |indexes| ==> 0 <= indexes[i] < |lengths|
    ensures |r| == |indexes| && forall i :: 0 <= i < |indexes| ==> r[i] == lengths[indexes[i]]
  {
    seq(|indexes|, i requires 0 <= i < |indexes| => lengths[indexes[i]])
  }

  /** Exactly the selections of nonnegative files with a representable sum. */
  ghost function SelectedSize(lengths: seq<int64>, indexes: seq<int>): Option<int64>
    requires forall i :: 0 <= i < |indexes| ==> 0 <= indexes[i] < |lengths|
  {
    var picked := Pick(lengths, indexes);
    if NonNegative(picked) && Total(picked) <= MAX_INT64 then
      TotalNonNegative(picked);
      Some(Total(picked) as int64)
    else None
  }

  lemma {:induction false} TotalNonNegative(lengths: seq<int64>)
    requires NonNegative(lengths)
    ensures 0 <= Total(lengths)
    ensures forall k :: 0 <= k <= |lengths| ==> Total(lengths[..k]) <= Total(lengths)
  {
    if lengths != [] {
      var front := lengths[..|lengths| - 1];
      TotalNonNegative(front);
      forall k | 0 <= k <= |lengths| ensures Total(lengths[..k]) <= Total(lengths) {
        if k < |lengths| {
          assert lengths[..k] == front[..k];
        } else {
          assert lengths[..k] == lengths;
        }
      }
    }
  }

  method SelectedSizeLoop(lengths: seq<int64>, indexes: seq<int>) returns (r: Option<int64>)
    requires forall i :: 0 <= i < |indexes| ==> 0 <= indexes[i] < |lengths|
    ensures r == SelectedSize(lengths, indexes)
  {
    var size: int64 := 0;
    ghost var picked := Pick(lengths, indexes);
    for k := 0 to |indexes|
      invariant 0 <= size && size as int == Total(picked[..k])
      invariant NonNegative(picked[..k])
    {
      var length := lengths[indexes[k]];
      assert picked[..k + 1] == picked[..k] + [length];
      if length < 0 || size > MAX - length {
        if 0 <= length && NonNegative(picked) {
          TotalNonNegative(picked);
          assert Total(picked[..k + 1]) > MAX_INT64;
        } else {
          assert picked[k] == length;
        }
        return None;
      }
      size := size + length;
    }
    assert picked[..|indexes|] == picked;
    r := Some(size);
  }

  // ---------------------------------------------------------------- reservation

  /** Bytes reserved for a job, or nothing when they cannot be represented. */
  function Reserve(full: int64, selected: int64, zipped: bool, count: int64): Option<int64> {
    if full < 0 || selected < 0 || selected > full || count < 0 then None
    else
      var extra: int64 := BASE;
      if count > (MAX - extra) / 8192 then None
      else
        var extra := extra + count * 8192;
        if zipped && selected > MAX - extra - selected / 20 then None
        else
          var extra := if zipped then extra + selected + selected / 20 else extra;
          if full > MAX - extra then None
          else Some(full + extra)
  }

  /** The mathematical size of a reservation. */
  function Reserved(full: int, selected: int, zipped: bool, count: int): int {
    full + 16 * 1024 * 1024 + 8192 * count + if zipped then selected + selected / 20 else 0
  }

  predicate ValidSizes(full: int64, selected: int64, count: int64) {
    0 <= selected <= full && 0 <= count
  }

  /** Errors are exactly invalid sizes and sums beyond the range. */
  lemma ReserveExact(full: int64, selected: int64, zipped: bool, count: int64)
    ensures Reserve(full, selected, zipped, count) ==
            if ValidSizes(full, selected, count)
               && Reserved(full as int, selected as int, zipped, count as int) <= MAX_INT64
            then Some(Reserved(full as int, selected as int, zipped, count as int) as int64)
            else None
  {
  }

  /** A larger job never reserves less. */
  lemma ReserveMonotone(full: int64, selected: int64, zipped: bool, count: int64,
                        full': int64, selected': int64, zipped': bool, count': int64)
    requires full <= full' && selected <= selected' && (zipped ==> zipped') && count <= count'
    requires ValidSizes(full, selected, count)
    requires Reserve(full', selected', zipped', count').Some?
    ensures Reserve(full, selected, zipped, count).Some?
    ensures full <= Reserve(full, selected, zipped, count).value
                 <= Reserve(full', selected', zipped', count').value
  {
  }

  /** What a reservation still has to write, given what is already on disk. */
  function Remaining(reserved: int, onDisk: int): int {
    if onDisk >= reserved then 0 else reserved - onDisk
  }

  // ------------------------------------------------------------ physical blocks

  /** Device and number. */
  type Inode = (int, int)

  /** One entry of a directory walk as `Lstat` reports it. */
  datatype Entry =
    | Vanished
    | Unreadable
    | Symlink
    | Present(inode: Inode)

  function Inodes(walk: seq<Entry>): set<Inode> {
    set e | e in walk && e.Present? :: e.inode
  }

  predicate Readable(walk: seq<Entry>) {
    Unreadable !in walk && Symlink !in walk
  }

  ghost function BlockSum(inodes: set<Inode>, blocks: Inode -> int64): int {
    Sum(map i | i in inodes :: blocks(i) as int)
  }

  lemma BlockSumInsert(inodes: set<Inode>, i: Inode, blocks: Inode -> int64)
    requires i !in inodes
    ensures BlockSum(inodes + {i}, blocks) == BlockSum(inodes, blocks) + blocks(i) as int
  {
    var m := map j | j in inodes :: blocks(j) as int;
    SumInsert(m, i, blocks(i) as int);
    assert m[i := blocks(i) as int] == map j | j in inodes + {i} :: blocks(j) as int;
  }

  lemma BlockSumNonNegative(a: set<Inode>, blocks: Inode -> int64)
    ensures (forall i :: i in a ==> 0 <= blocks(i)) ==> 0 <= BlockSum(a, blocks)
  {
    if forall i :: i in a ==> 0 <= blocks(i) {
      SumNonNegative(map i | i in a :: blocks(i) as int);
    }
  }

  lemma {:induction false} BlockSumUnion(a: set<Inode>, b: set<Inode>, blocks: Inode -> int64)
    requires a !! b
    ensures BlockSum(a + b, blocks) == BlockSum(a, blocks) + BlockSum(b, blocks)
    decreases |b|
  {
    if b == {} {
      assert a + b == a && (map i | i in b :: blocks(i) as int) == map[];
    } else {
      hide BlockSum;
      var i :| i in b;
      BlockSumUnion(a, b - {i}, blocks);
      BlockSumInsert(a + (b - {i}), i, blocks);
      BlockSumInsert(b - {i}, i, blocks);
      assert a + (b - {i}) + {i} == a + b && b - {i} + {i} == b;
    }
  }

  /**
   512 times the blocks of the distinct inodes of the walk, or an error; it is
   an error exactly when an entry cannot be inspected, a block count is
   negative, or the total cannot be represented.
   */
  ghost function Allocated(walk: seq<Entry>, blocks: Inode -> int64): (r: Option<int64>)
    ensures r.Some? ==> 0 <= r.value
  {
    if Readable(walk) && (forall i :: i in Inodes(walk) ==> 0 <= blocks(i))
       && 512 * BlockSum(Inodes(walk), blocks) <= MAX_INT64
    then
      BlockSumNonNegative(Inodes(walk), blocks);
      Some((512 * BlockSum(Inodes(walk), blocks)) as int64)
    else None
  }

  /** The same in plain terms: an inode counts once, however many entries refer to it. */
  lemma AllocatedExact(walk: seq<Entry>, blocks: Inode -> int64)
    ensures var inodes := set e | e in walk && e.Present? :: e.inode;
            var bytes := 512 * Sum(map i | i in inodes :: blocks(i) as int);
            && (Allocated(walk, blocks) == None <==>
                  || Unreadable in walk || Symlink in walk || bytes > MAX_INT64
                  || exists i :: i in inodes && blocks(i) < 0)
            && (Allocated(walk, blocks).Some? ==> Allocated(walk, blocks).value as int == bytes)
  {
    assert Inodes(walk) == set e | e in walk && e.Present? :: e.inode;
  }

  method AllocatedBytes(walk: seq<Entry>, blocks: Inode -> int64) returns (r: Option<int64>)
    ensures r == Allocated(walk, blocks)
  {
    var seen: set<Inode> := {};
    var total: int64 := 0;
    for k := 0 to |walk|
      invariant seen == Inodes(walk[..k]) && Readable(walk[..k])
      invariant forall i :: i in seen ==> 0 <= blocks(i)
      invariant 0 <= total && total as int == 512 * BlockSum(seen, blocks)
    {
      assert walk[..k + 1] == walk[..k] + [walk[k]];
      assert walk[k] in walk;
      match walk[k]
      case Vanished =>
      case Unreadable => return None;
      case Symlink => return None;
      case Present(inode) =>
        if inode !in seen {
          var b := blocks(inode);
          if b < 0 || b > (MAX - total) / 512 {
            AllocationOverflow(walk, seen, inode, blocks, total as int);
            return None;
          }
          BlockSumInsert(seen, inode, blocks);
          seen := seen + {inode};
          total := total + b * 512;
        }
        assert seen == Inodes(walk[..k + 1]);
    }
    assert walk[..|walk|] == walk;
    r := Some(total);
  }

  lemma AllocationOverflow(walk: seq<Entry>, seen: set<Inode>, inode: Inode,
                           blocks: Inode -> int64, total: int)
    requires seen <= Inodes(walk) && inode in Inodes(walk) && inode !in seen
    requires total == 512 * BlockSum(seen, blocks) && 0 <= total <= MAX_INT64
    requires blocks(inode) as int < 0 || blocks(inode) as int > (MAX_INT64 - total) / 512
    ensures (exists i :: i in Inodes(walk) && blocks(i) < 0)
            || 512 * BlockSum(Inodes(walk), blocks) > MAX_INT64
  {
    if forall i :: i in Inodes(walk) ==> 0 <= blocks(i) {
      BlockSumInsert(seen, inode, blocks);
      SumLe(map i | i in seen + {inode} :: blocks(i) as int, map i | i in Inodes(walk) :: blocks(i) as int);
    }
  }
}
