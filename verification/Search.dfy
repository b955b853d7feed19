/**
 The library search: a query becomes a LIKE pattern with an explicit escape
 character. Matching follows section 8.5 of ISO/IEC 9075:1992, with equality of
 characters as the collation.
 */
module Search {
  import opened Library
  import opened Wrappers

  // ----------------------------------------------------------------- the LIKE predicate

  datatype Piece = Literal(c: char) | AnyChar | AnyString

  /** The pieces of a pattern; an escape character must stand before itself, '%' or '_'. */
  function Pieces(pattern: string, escape: char): Option<seq<Piece>> {
    if pattern == "" then Some([])
    else if pattern[0] == escape then
      if |pattern| == 1 || pattern[1] !in {escape, '%', '_'} then None
      else
        var rest := Pieces(pattern[2..], escape);
        if rest == None then None else Some([Literal(pattern[1])] + rest.value)
    else
      var rest := Pieces(pattern[1..], escape);
      if rest == None then None
      else
        Some([if pattern[0] == '%' then AnyString else if pattern[0] == '_' then AnyChar else Literal(pattern[0])]
             + rest.value)
  }

  predicate Matches(pieces: seq<Piece>, s: string)
    decreases |pieces|
  {
    if pieces == [] then s == ""
    else
      match pieces[0]
      case Literal(c) => s != "" && s[0] == c && Matches(pieces[1..], s[1..])
      case AnyChar => s != "" && Matches(pieces[1..], s[1..])
      case AnyString => exists k :: 0 <= k <= |s| && Matches(pieces[1..], s[k..])
  }

  predicate Like(s: string, pattern: string, escape: char) {
    var pieces := Pieces(pattern, escape);
    pieces.Some? && Matches(pieces.value, s)
  }

  // ----------------------------------------------------------------------- the escaping

  const ESCAPE := '!'

  /** Each of the three special characters gets the escape character in front. */
  function Escaped(q: string): string {
    if q == "" then ""
    else
      (match q[0]
       case '!' => "!!"
       case '%' => "!%"
       case '_' => "!_"
       case c => [c])
      + Escaped(q[1..])
  }

  function Pattern(q: string): string {
    "%" + Escaped(q) + "%"
  }

  function Literals(q: string): (r: seq<Piece>)
    ensures |r| == |q|
  {
    seq(|q|, i requires 0 <= i < |q| => Literal(q[i]))
  }

  /** `q` occurs in `s` as a contiguous substring. */
  predicate Occurs(q: string, s: string) {
    exists i: nat :: i <= |s| && OccursAt(q, s, i)
  }

  predicate OccursAt(q: string, s: string, i: nat) {
    i + |q| <= |s| && s[i..i + |q|] == q
  }

  lemma PiecesLiteral(c: char, rest: string)
    ensures c in {'!', '%', '_'} ==>
              Pieces([ESCAPE, c] + rest, ESCAPE) ==
              if Pieces(rest, ESCAPE) == None then None else Some([Literal(c)] + Pieces(rest, ESCAPE).value)
    ensures c !in {'!', '%', '_'} ==>
              Pieces([c] + rest, ESCAPE) ==
              if Pieces(rest, ESCAPE) == None then None else Some([Literal(c)] + Pieces(rest, ESCAPE).value)
  {
    assert ([ESCAPE, c] + rest)[2..] == rest && ([c] + rest)[1..] == rest;
  }

  /** An escaped query is a pattern of literals, whatever follows. */
  lemma {:induction false} EscapedPieces(q: string, tail: string)
    requires Pieces(tail, ESCAPE).Some?
    ensures Pieces(Escaped(q) + tail, ESCAPE) == Some(Literals(q) + Pieces(tail, ESCAPE).value)
  {
    hide Pieces, Literals, Escaped;
    if q == "" {
      EscapedNone(tail, Pieces(tail, ESCAPE).value);
    } else {
      EscapedPieces(q[1..], tail);
      EscapedNext(q, tail);
      PiecesLiteral(q[0], Escaped(q[1..]) + tail);
      LiteralsNext(q, Pieces(tail, ESCAPE).value);
    }
  }

  lemma EscapedNone(tail: string, rest: seq<Piece>)
    ensures Escaped("") + tail == tail && Literals("") + rest == rest
  {
  }

  lemma EscapedNext(q: string, tail: string)
    requires q != ""
    ensures Escaped(q) + tail ==
            (if q[0] in {'!', '%', '_'} then [ESCAPE, q[0]] else [q[0]]) + (Escaped(q[1..]) + tail)
  {
    assert "!!" == [ESCAPE, '!'] && "!%" == [ESCAPE, '%'] && "!_" == [ESCAPE, '_'];
  }

  lemma LiteralsNext(q: string, rest: seq<Piece>)
    requires q != ""
    ensures Literals(q) + rest == [Literal(q[0])] + (Literals(q[1..]) + rest)
  {
  }

  lemma {:induction false} LiteralsMatch(q: string, rest: seq<Piece>, s: string)
    ensures Matches(Literals(q) + rest, s) <==> |q| <= |s| && s[..|q|] == q && Matches(rest, s[|q|..])
    decreases |q|
  {
    var pieces := Literals(q) + rest;
    if q == "" {
      assert pieces == rest && s[0..] == s;
    } else {
      assert pieces[0] == Literal(q[0]) && pieces[1..] == Literals(q[1..]) + rest;
      if s != "" {
        LiteralsMatch(q[1..], rest, s[1..]);
        assert q == [q[0]] + q[1..];
        if |q| <= |s| {
          assert s[1..][|q| - 1..] == s[|q|..];
          assert s[..|q|] == [s[0]] + s[1..][..|q| - 1];
        }
      }
    }
  }

  /** A trailing '%' matches everything. */
  lemma AnyTail(s: string)
    ensures Matches([AnyString], s)
  {
    assert Matches([AnyString][1..], s[|s|..]);
  }

  /** The search finds exactly the names in which the query occurs. */
  lemma EscapingIsExact(q: string, s: string)
    ensures Like(s, Pattern(q), ESCAPE) <==> Occurs(q, s)
  {
    var tail := Literals(q) + [AnyString];
    PatternPieces(q);
    assert ([AnyString] + tail)[1..] == tail;
    forall k | 0 <= k <= |s| ensures Matches(tail, s[k..]) <==> OccursAt(q, s, k) {
      LiteralsMatch(q, [AnyString], s[k..]);
      if |q| <= |s[k..]| {
        AnyTail(s[k..][|q|..]);
        assert s[k..][..|q|] == s[k..k + |q|];
      }
    }
  }

  lemma PercentPieces()
    ensures Pieces("%", ESCAPE) == Some([AnyString])
  {
    assert "%"[1..] == "" && Pieces("", ESCAPE) == Some([]);
    assert [AnyString] + [] == [AnyString];
  }

  lemma PatternPieces(q: string)
    ensures Pieces(Pattern(q), ESCAPE) == Some([AnyString] + (Literals(q) + [AnyString]))
  {
    PercentPieces();
    EscapedPieces(q, "%");
    assert Pattern(q)[0] == '%' && Pattern(q)[1..] == Escaped(q) + "%";
  }

  // ------------------------------------------------------------------------- the search

  datatype Item = FolderItem(id: Id) | FileItem(id: Id)

  /** Public rows and one's own; the NULL of a guest equals nothing. */
  predicate Visible(owner: Option<Text>, user: Option<Text>) {
    owner == None || owner == user
  }

  /** What a request may see: one folder, or every name in which the query occurs. */
  predicate Wanted(query: string, name: string, at: Id, folder: Id) {
    if query == "" then at == folder else Occurs(query, name)
  }

  function FoundFolders(t: Tables, folder: Id, user: Option<Text>, query: string): set<Id> {
    set f | f in t.folders && f != ROOT && Visible(t.folders[f].owner, user)
            && Wanted(query, t.folders[f].name, t.folders[f].parent, folder)
  }

  function FoundFiles(t: Tables, folder: Id, user: Option<Text>, query: string): set<Id> {
    set f | f in t.files && Visible(t.files[f].owner, user)
            && Wanted(query, t.files[f].name, t.files[f].folder, folder)
  }

  /** Guests see what belongs to nobody, others also what is theirs, and nobody the root. */
  lemma FoundExact(t: Tables, folder: Id, user: Option<Text>, query: string)
    ensures forall f :: f in FoundFolders(t, folder, user, query) <==>
              && f in t.folders && f != ROOT
              && (t.folders[f].owner == None || (user.Some? && t.folders[f].owner == Some(user.value)))
              && if query == "" then t.folders[f].parent == folder else Occurs(query, t.folders[f].name)
    ensures forall f :: f in FoundFiles(t, folder, user, query) <==>
              && f in t.files
              && (t.files[f].owner == None || (user.Some? && t.files[f].owner == Some(user.value)))
              && if query == "" then t.files[f].folder == folder else Occurs(query, t.files[f].name)
  {
    hide Occurs;
  }

  /** The rows of the two halves of the UNION ALL, tagged with their type. */
  function Items(folders: seq<Id>, files: seq<Id>): seq<Item> {
    seq(|folders|, i requires 0 <= i < |folders| => FolderItem(folders[i]))
    + seq(|files|, i requires 0 <= i < |files| => FileItem(files[i]))
  }

  /** The filter of the statement for one row. */
  predicate Filter(query: string, name: string, at: Id, folder: Id) {
    if query == "" then at == folder else Like(name, Pattern(query), ESCAPE)
  }

  lemma FilterExact(query: string, name: string, at: Id, folder: Id)
    ensures Filter(query, name, at, folder) == Wanted(query, name, at, folder)
  {
    EscapingIsExact(query, name);
  }

  /** The two WHERE clauses. */
  function SelectFolders(t: Tables, folder: Id, user: Option<Text>, query: string): set<Id> {
    set f | f in t.folders && Filter(query, t.folders[f].name, t.folders[f].parent, folder) && f != ROOT
            && Visible(t.folders[f].owner, user)
  }

  function SelectFiles(t: Tables, folder: Id, user: Option<Text>, query: string): set<Id> {
    set f | f in t.files && Filter(query, t.files[f].name, t.files[f].folder, folder)
            && Visible(t.files[f].owner, user)
  }

  lemma SelectExact(t: Tables, folder: Id, user: Option<Text>, query: string)
    ensures SelectFolders(t, folder, user, query) == FoundFolders(t, folder, user, query)
    ensures SelectFiles(t, folder, user, query) == FoundFiles(t, folder, user, query)
  {
    hide Wanted, Filter, Visible;
    forall f | f in t.folders
      ensures f in SelectFolders(t, folder, user, query) <==> f in FoundFolders(t, folder, user, query)
    {
      FilterExact(query, t.folders[f].name, t.folders[f].parent, folder);
    }
    forall f | f in t.files
      ensures f in SelectFiles(t, folder, user, query) <==> f in FoundFiles(t, folder, user, query)
    {
      FilterExact(query, t.files[f].name, t.files[f].folder, folder);
    }
  }

  lemma ItemsExact(folders: seq<Id>, files: seq<Id>, foundFolders: set<Id>, foundFiles: set<Id>)
    requires Enumerates(folders, foundFolders) && Enumerates(files, foundFiles)
    ensures var items := Items(folders, files);
            && (forall i, k :: 0 <= i < k < |items| ==> items[i] != items[k])
            && (forall f :: FolderItem(f) in items <==> f in foundFolders)
            && (forall f :: FileItem(f) in items <==> f in foundFiles)
  {
    var items := Items(folders, files);
    forall f | f in foundFolders ensures FolderItem(f) in items {
      var i :| 0 <= i < |folders| && folders[i] == f;
      assert items[i] == FolderItem(f);
    }
    forall f | f in foundFiles ensures FileItem(f) in items {
      var i :| 0 <= i < |files| && files[i] == f;
      assert items[|folders| + i] == FileItem(f);
    }
  }

  /** Each row that is found, once; the sort order is not part of the model. */
  method GetLibraryContents(t: Tables, folder: Id, user: Option<Text>, query: string) returns (items: seq<Item>)
    ensures forall i, k :: 0 <= i < k < |items| ==> items[i] != items[k]
    ensures forall f :: FolderItem(f) in items <==> f in FoundFolders(t, folder, user, query)
    ensures forall f :: FileItem(f) in items <==> f in FoundFiles(t, folder, user, query)
    ensures user == None ==>
              && (forall f :: FolderItem(f) in items ==> f in t.folders && t.folders[f].owner == None)
              && forall f :: FileItem(f) in items ==> f in t.files && t.files[f].owner == None
  {
    hide Enumerates, SelectFolders, SelectFiles, FoundFolders, FoundFiles;
    FoundExact(t, folder, user, query);
    SelectExact(t, folder, user, query);
    var folders := Listed(SelectFolders(t, folder, user, query));
    var files := Listed(SelectFiles(t, folder, user, query));
    items := [];
    for i := 0 to |folders|
      invariant items == Items(folders[..i], [])
    {
      items := items + [FolderItem(folders[i])];
    }
    assert folders[..|folders|] == folders;
    for i := 0 to |files|
      invariant items == Items(folders, files[..i])
    {
      items := items + [FileItem(files[i])];
    }
    assert files[..|files|] == files;
    ItemsExact(folders, files, FoundFolders(t, folder, user, query), FoundFiles(t, folder, user, query));
  }
}
