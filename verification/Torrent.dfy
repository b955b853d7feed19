/**
 Uploaded torrent metadata after decoding (BEP 3, info dictionary): the checks
 on names, paths, lengths and piece hashes, and what they mean for the sizes
 the queue computes later.
 */
module Torrent {
  import opened JobStore
  import opened Paths
  import opened QueueOps
  import opened Reservation
  import opened Sums
  import opened Wrappers

  // -------------------------------------------------------------------- acceptance

  type Length = n: int64 | 0 <= n

  /** The decoded dictionary; `pieces` is the length of the string of piece hashes. */
  datatype MetaInfo = MetaInfo(
    size: nat,
    decodes: bool,
    hasV1: bool,
    pieceLength: int64,
    pieces: Length,
    name: string,
    length: int64,
    files: seq<FileInfo>)

  const MAX_TORRENT_FILE_SIZE := 4 * 1024 * 1024

  ghost predicate ValidFile(f: FileInfo) {
    f.path != [] && (forall i :: 0 <= i < |f.path| ==> Component(f.path[i])) && 0 <= f.length
  }

  /** Safe paths, no two equal, and lengths whose exact sum fits. */
  ghost predicate ValidFiles(files: seq<FileInfo>) {
    && (forall i :: 0 <= i < |files| ==> ValidFile(files[i]))
    && (forall i, k :: 0 <= i < k < |files| ==> files[i].path != files[k].path)
    && Total(Lengths(files)) <= MAX_INT64
  }

  /** The bytes the dictionary describes. */
  function Content(m: MetaInfo): int {
    if m.files == [] then m.length as int else Total(Lengths(m.files))
  }

  /** As many pieces as it takes to cover the content, and no more. */
  predicate Covering(pieces: int, pieceLength: int, content: int) {
    (pieces - 1) * pieceLength < content <= pieces * pieceLength
  }

  ghost predicate ValidInfo(m: MetaInfo, clean: string -> string) {
    && 0 < m.size <= 4 * 1024 * 1024 && m.decodes && m.hasV1
    && 0 < m.pieceLength && m.pieces % 20 == 0 && |m.files| <= 10000
    && SafeRelative(m.name, clean)
    && (if m.files == [] then 0 <= m.length else m.length == 0 && ValidFiles(m.files))
    && Covering(m.pieces as int / 20, m.pieceLength as int, Content(m))
  }

  method CheckPath(path: seq<string>, clean: string -> string) returns (ok: bool)
    ensures ok <==> path != [] && forall i :: 0 <= i < |path| ==> Component(path[i])
  {
    if path == [] {
      return false;
    }
    for i := 0 to |path|
      invariant forall k :: 0 <= k < i ==> '/' !in path[k] && '\\' !in path[k]
    {
      var part := path[i];
      if part == "" || part == "." || part == ".." || '/' in part || '\\' in part {
        return false;
      }
    }
    SafeJoined(path, clean);
    ok := SafeRelative(Joined(path), clean);
  }

  lemma TotalNext(files: seq<FileInfo>, k: int)
    requires 0 <= k < |files|
    ensures Total(Lengths(files[..k + 1])) == Total(Lengths(files[..k])) + files[k].length as int
  {
    assert Lengths(files[..k + 1])[..k] == Lengths(files[..k]);
  }

  lemma TotalPrefix(files: seq<FileInfo>, k: int)
    requires 0 <= k <= |files| && forall i :: 0 <= i < |files| ==> 0 <= files[i].length
    ensures 0 <= Total(Lengths(files[..k])) <= Total(Lengths(files))
  {
    TotalNonNegative(Lengths(files));
    TotalNonNegative(Lengths(files[..k]));
    assert Lengths(files)[..k] == Lengths(files[..k]);
  }

  lemma SamePath(f: FileInfo, g: FileInfo)
    requires ValidFile(f) && g.path != [] && forall i :: 0 <= i < |g.path| ==> Component(g.path[i])
    ensures Joined(f.path) == Joined(g.path) <==> f.path == g.path
  {
    JoinedInjective(f.path, g.path);
  }

  /** What a file must not do to the files before it. */
  lemma FileRejected(files: seq<FileInfo>, k: int, sum: int)
    requires 0 <= k < |files| && sum == Total(Lengths(files[..k]))
    requires || !ValidFile(files[k])
             || (exists i :: 0 <= i < k && files[i].path == files[k].path)
             || files[k].length as int > MAX_INT64 - sum
    ensures !ValidFiles(files)
  {
    if ValidFiles(files) {
      TotalNext(files, k);
      TotalPrefix(files, k + 1);
    }
  }

  /** The loop over the files: `None` rejects. */
  method CheckFiles(files: seq<FileInfo>, clean: string -> string) returns (total: Option<int64>)
    ensures total.Some? <==> ValidFiles(files)
    ensures total.Some? ==> 0 <= total.value && total.value as int == Total(Lengths(files))
  {
    hide Component, Joined, Total, SafeRelative, Lengths;
    var sum: int64 := 0;
    var seen: set<string> := {};
    LengthsNone(files);
    for k := 0 to |files|
      invariant forall i :: 0 <= i < k ==> ValidFile(files[i])
      invariant seen == set i | 0 <= i < k :: Joined(files[i].path)
      invariant forall i, j :: 0 <= i < j < k ==> files[i].path != files[j].path
      invariant 0 <= sum && sum as int == Total(Lengths(files[..k]))
    {
      var f := files[k];
      var ok := CheckPath(f.path, clean);
      if !ok {
        FileRejected(files, k, sum as int);
        return None;
      }
      forall i | 0 <= i < k ensures Joined(files[i].path) == Joined(f.path) <==> files[i].path == f.path {
        SamePath(files[i], f);
      }
      if Joined(f.path) in seen || f.length < 0 || f.length > MAX - sum {
        FileRejected(files, k, sum as int);
        return None;
      }
      TotalNext(files, k);
      seen := seen + {Joined(f.path)};
      sum := sum + f.length;
    }
    assert files[..|files|] == files;
    total := Some(sum);
  }

  lemma LengthsNone(files: seq<FileInfo>)
    ensures Total(Lengths(files[..0])) == 0
  {
  }

  lemma MulOrder(a: int, b: int, c: int)
    requires 0 < c
    ensures a < b <==> a * c < b * c
    ensures (a + 1) * c == a * c + c
  {
  }

  lemma CeilingCovers(total: int, pieceLength: int, pieces: int)
    requires 0 <= total && 0 < pieceLength
    ensures Covering(pieces, pieceLength, total)
            <==> pieces == total / pieceLength + if total % pieceLength != 0 then 1 else 0
  {
    var q := total / pieceLength;
    CeilingCases(total, q, total % pieceLength, pieceLength, pieces);
  }

  lemma CeilingCases(total: int, q: int, rest: int, c: int, pieces: int)
    requires total == q * c + rest && 0 <= rest < c
    ensures Covering(pieces, c, total) <==> pieces == q + if rest != 0 then 1 else 0
  {
    MulOrder(pieces - 1, q + 1, c);
    MulOrder(pieces, q, c);
    MulOrder(q, q, c);
    if pieces < q {
      MulOrder(pieces, q - 1, c);
      MulOrder(q - 1, q - 1, c);
    }
    if pieces > q + 1 {
      MulOrder(q + 1, pieces - 1, c);
    }
  }

  lemma PiecesFit(total: int64, pieceLength: int64)
    requires 0 <= total && 0 < pieceLength && total % pieceLength != 0
    ensures total / pieceLength < MAX
  {
  }

  lemma PieceTest(pieces: int64, total: int64, pieceLength: int64, expected: int64)
    requires 0 <= total && 0 < pieceLength && 0 <= pieces
    requires expected as int == (total / pieceLength) as int + if total % pieceLength != 0 then 1 else 0
    ensures pieces / 20 == expected <==> Covering(pieces as int / 20, pieceLength as int, total as int)
  {
    CeilingCovers(total as int, pieceLength as int, pieces as int / 20);
  }

  /** The content size of an acceptable torrent, or nothing. */
  method ParseTorrentFile(m: MetaInfo, clean: string -> string) returns (total: Option<int64>)
    ensures total.Some? <==> ValidInfo(m, clean)
    ensures total.Some? ==> total.value as int == Content(m)
  {
    hide ValidFiles, SafeRelative, Covering, Total;
    if m.size == 0 || m.size > MAX_TORRENT_FILE_SIZE || !m.decodes || !m.hasV1 {
      return None;
    }
    if m.pieceLength <= 0 || m.pieces % 20 != 0 || |m.files| > 10000 {
      return None;
    }
    if !SafeRelative(m.name, clean) {
      return None;
    }
    var sum := m.length;
    if m.files != [] {
      if m.length != 0 {
        return None;
      }
      var checked := CheckFiles(m.files, clean);
      if checked == None {
        return None;
      }
      sum := checked.value;
    }
    if sum < 0 {
      return None;
    }
    var pieces := sum / m.pieceLength;
    if sum % m.pieceLength != 0 {
      PiecesFit(sum, m.pieceLength);
      pieces := pieces + 1;
    }
    PieceTest(m.pieces, sum, m.pieceLength, pieces);
    if m.pieces / 20 != pieces {
      return None;
    }
    total := Some(sum);
  }

  // ---------------------------------------------------------------- the size chain

  ghost function LengthsAt(lengths: seq<int64>, indexes: set<int>): map<int, int>
    requires forall i :: i in indexes ==> 0 <= i < |lengths|
  {
    map i | i in indexes :: lengths[i] as int
  }

  function Chosen(indexes: seq<int>): set<int> {
    set i | 0 <= i < |indexes| :: indexes[i]
  }

  predicate InRange(indexes: seq<int>, count: int) {
    forall i :: 0 <= i < |indexes| ==> 0 <= indexes[i] < count
  }

  lemma ChosenNext(lengths: seq<int64>, indexes: seq<int>, last: int)
    requires InRange(indexes, |lengths|) && 0 <= last < |lengths| && last !in indexes
    ensures InRange(indexes + [last], |lengths|)
    ensures Sum(LengthsAt(lengths, Chosen(indexes + [last]))) ==
            Sum(LengthsAt(lengths, Chosen(indexes))) + lengths[last] as int
  {
    hide Sum;
    var before := LengthsAt(lengths, Chosen(indexes));
    SumInsert(before, last, lengths[last] as int);
    assert Chosen(indexes + [last]) == Chosen(indexes) + {last} by {
      var more := indexes + [last];
      assert more[|indexes|] == last;
      assert forall i :: 0 <= i < |indexes| ==> more[i] == indexes[i];
      assert forall x :: x in Chosen(indexes) || x == last ==> x in Chosen(more);
    }
    assert LengthsAt(lengths, Chosen(indexes) + {last}) == before[last := lengths[last] as int];
  }

  lemma PickNext(lengths: seq<int64>, indexes: seq<int>, last: int)
    requires InRange(indexes, |lengths|) && 0 <= last < |lengths|
    ensures Total(Pick(lengths, indexes + [last])) == Total(Pick(lengths, indexes)) + lengths[last] as int
  {
    assert Pick(lengths, indexes + [last])[..|indexes|] == Pick(lengths, indexes);
  }

  lemma {:induction false} PickIsSum(lengths: seq<int64>, indexes: seq<int>)
    requires Distinct(indexes) && InRange(indexes, |lengths|)
    ensures Total(Pick(lengths, indexes)) == Sum(LengthsAt(lengths, Chosen(indexes)))
    decreases |indexes|
  {
    if indexes == [] {
      assert LengthsAt(lengths, Chosen(indexes)) == map[];
    } else {
      var front, last := indexes[..|indexes| - 1], indexes[|indexes| - 1];
      assert indexes == front + [last];
      PickIsSum(lengths, front);
      PickNext(lengths, front, last);
      ChosenNext(lengths, front, last);
    }
  }

  /** Distinct files of a torrent never add up to more than all of them. */
  lemma SelectionWithinTotal(lengths: seq<int64>, indexes: seq<int>)
    requires NonNegative(lengths) && Distinct(indexes) && InRange(indexes, |lengths|)
    ensures 0 <= Total(Pick(lengths, indexes)) <= Total(lengths)
  {
    var all := Range(|lengths|);
    PickIsSum(lengths, indexes);
    PickIsSum(lengths, all);
    assert Pick(lengths, all) == lengths;
    TotalNonNegative(Pick(lengths, indexes));
    ChosenWithin(lengths, indexes, all);
  }

  lemma ChosenWithin(lengths: seq<int64>, indexes: seq<int>, all: seq<int>)
    requires NonNegative(lengths) && InRange(indexes, |lengths|) && all == Range(|lengths|)
    ensures Sum(LengthsAt(lengths, Chosen(indexes))) <= Sum(LengthsAt(lengths, Chosen(all)))
  {
    hide Sum;
    var chosen, every := LengthsAt(lengths, Chosen(indexes)), LengthsAt(lengths, Chosen(all));
    forall i | 0 <= i < |lengths| ensures i in every {
      assert all[i] == i;
    }
    assert forall i :: i in chosen ==> i in every && chosen[i] <= every[i];
    assert forall i :: i in every && i !in chosen ==> 0 <= every[i];
    SumLe(chosen, every);
  }

  /**
   For a torrent with exact sizes, neither the overflow test of the selected size
   nor the comparison of the selected with the full size ever fails, so the queue
   gives up for three reasons only: the selection does not fit the torrent, a
   name is unsafe, or the reservation cannot be represented.
   */
  lemma SizeChain(j: Job, info: Info)
    requires NonNegative(Lengths(info.files)) && info.full as int == Total(Lengths(info.files))
    requires |info.files| <= 10000
    ensures var indexes, lengths := SelectedIndexes(j.selected, |info.files|), Lengths(info.files);
            && (indexes.Some? ==> 0 <= Total(Pick(lengths, indexes.value)) <= info.full as int)
            && Measured(j, info) ==
               if indexes == None || !SafeInfo(info) then None
               else
                 var size := Total(Pick(lengths, indexes.value));
                 var reserved := Reserved(info.full as int, size, j.zipped, |info.files|);
                 if reserved <= MAX_INT64 then Some((size as int64, reserved as int64)) else None
  {
    var indexes, lengths := SelectedIndexes(j.selected, |info.files|), Lengths(info.files);
    if indexes.Some? {
      var s := indexes.value;
      assert Distinct(s) && InRange(s, |info.files|);
      SelectionWithinTotal(lengths, s);
      ReserveExact(info.full, Total(Pick(lengths, s)) as int64, j.zipped, |info.files| as int64);
    }
  }

  /** The metadata of an uploaded torrent as the client reports it; a single file has no path of its own. */
  function InfoOf(m: MetaInfo): Info
    requires 0 <= Content(m) <= MAX_INT64
  {
    Info(m.name, Content(m) as int64, if m.files == [] then [FileInfo([], m.length, false)] else m.files)
  }

  lemma InfoOfExact(m: MetaInfo, clean: string -> string)
    requires ValidInfo(m, clean)
    ensures 0 <= Content(m) <= MAX_INT64
    ensures var info := InfoOf(m);
            && NonNegative(Lengths(info.files)) && info.full as int == Total(Lengths(info.files))
            && 1 <= |info.files| <= 10000
  {
    if m.files == [] {
      var lengths := Lengths([FileInfo([], m.length, false)]);
      assert lengths[..0] == [];
      assert Total(lengths) == m.length as int;
    } else {
      TotalNonNegative(Lengths(m.files));
    }
  }

  /** From acceptance of the upload to the reservation. */
  lemma AcceptedSizes(j: Job, m: MetaInfo, clean: string -> string)
    requires ValidInfo(m, clean)
    ensures 0 <= Content(m) <= MAX_INT64
    ensures var info := InfoOf(m);
            var indexes, lengths := SelectedIndexes(j.selected, |info.files|), Lengths(info.files);
            && (indexes.Some? ==> 0 <= Total(Pick(lengths, indexes.value)) <= Content(m))
            && (Measured(j, info).Some? <==>
                  && indexes.Some? && SafeInfo(info)
                  && Reserved(Content(m), Total(Pick(lengths, indexes.value)), j.zipped, |info.files|) <= MAX_INT64)
  {
    InfoOfExact(m, clean);
    hide ValidInfo, Content;
    SizeChain(j, InfoOf(m));
  }

  /** The worker accepts the names of an accepted upload unless the torrent name has a slash or a file is a link. */
  lemma AcceptedNames(m: MetaInfo, clean: string -> string)
    requires ValidInfo(m, clean)
    ensures 0 <= Content(m) <= MAX_INT64
    ensures SafeInfo(InfoOf(m)) <==> '/' !in m.name && forall i :: 0 <= i < |m.files| ==> !m.files[i].symlink
  {
    InfoOfExact(m, clean);
    var info := InfoOf(m);
    if '/' !in m.name {
      SafeJoined([m.name], clean);
    }
    if m.files != [] {
      forall i | 0 <= i < |m.files| ensures SafeFile(info.files[i]) <==> !m.files[i].symlink {
        assert ValidFile(m.files[i]);
      }
    }
  }

  /** A name that is accepted on upload and rejected by the worker. */
  lemma SlashedName(clean: string -> string)
    ensures var m := MetaInfo(100, true, true, 1, 20, "a/b", 1, []);
            ValidInfo(m, clean) && !SafeInfo(InfoOf(m))
  {
    SafeJoined(["a", "b"], clean);
    assert Joined(["a", "b"]) == "a/b";
  }
}
