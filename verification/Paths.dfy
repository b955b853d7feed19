/**
 Slash-separated paths: their parts, their directory and last element, and which
 of them stay inside the directory they are joined to.
 */
module Paths {

  function LastSlash(p: string): (i: int)
    ensures -1 <= i < |p|
    ensures 0 <= i ==> p[i] == '/'
    ensures forall k :: i < k < |p| ==> p[k] != '/'
  {
    if p == "" then -1 else if p[|p| - 1] == '/' then |p| - 1 else LastSlash(p[..|p| - 1])
  }

  /** The directory of a path that has no redundant parts. */
  function Dir(p: string): string {
    var i := LastSlash(p);
    if i < 0 then "." else if i == 0 then "/" else p[..i]
  }

  /** The last element of a path that does not end in a slash. */
  function Base(p: string): string {
    p[LastSlash(p) + 1..]
  }

  /** One part of a path that stays inside its directory. */
  predicate Component(part: string) {
    part != "" && part != "." && part != ".." && '/' !in part && '\\' !in part && '\0' !in part
  }

  function Split(path: string): (parts: seq<string>)
    ensures parts != []
  {
    if path == "" then [""]
    else
      var rest := Split(path[1..]);
      if path[0] == '/' then [""] + rest else [[path[0]] + rest[0]] + rest[1..]
  }

  function Joined(parts: seq<string>): string
    requires parts != []
  {
    if |parts| == 1 then parts[0] else parts[0] + "/" + Joined(parts[1..])
  }

  lemma {:induction false} SplitSimple(part: string)
    requires '/' !in part
    ensures Split(part) == [part]
  {
    if part != "" {
      SplitSimple(part[1..]);
      assert part == [part[0]] + part[1..];
    }
  }

  lemma {:induction false} SplitAfter(part: string, rest: string)
    requires '/' !in part
    ensures Split(part + "/" + rest) == [part] + Split(rest)
  {
    var path := part + "/" + rest;
    if part == "" {
      assert path[1..] == rest;
    } else {
      assert path[1..] == part[1..] + "/" + rest;
      SplitAfter(part[1..], rest);
      assert part == [part[0]] + part[1..];
    }
  }

  /** Joining and splitting undo each other. */
  lemma {:induction false} SplitJoined(parts: seq<string>)
    requires parts != [] && forall i :: 0 <= i < |parts| ==> '/' !in parts[i]
    ensures Split(Joined(parts)) == parts
  {
    if |parts| == 1 {
      SplitSimple(parts[0]);
    } else {
      SplitJoined(parts[1..]);
      SplitAfter(parts[0], Joined(parts[1..]));
    }
  }

  lemma {:induction false} JoinedSplit(path: string)
    ensures Joined(Split(path)) == path
    ensures forall i :: 0 <= i < |Split(path)| ==> '/' !in Split(path)[i]
    ensures forall i :: 0 <= i < |Split(path)| ==> forall c :: c in Split(path)[i] ==> c in path
  {
    if path != "" {
      JoinedSplit(path[1..]);
      var rest := Split(path[1..]);
      assert path == [path[0]] + path[1..];
      if path[0] == '/' {
        assert ([""] + rest)[1..] == rest;
      } else if |rest| > 1 {
        assert ([[path[0]] + rest[0]] + rest[1..])[1..] == rest[1..];
      }
    }
  }

  /** Lexical locality on Unix; only a path with dots is cleaned, by `clean`. */
  predicate IsLocal(path: string, clean: string -> string) {
    && path != "" && path[0] != '/'
    && (("." in Split(path) || ".." in Split(path)) ==>
          clean(path) != ".." && !("../" <= clean(path)))
  }

  predicate SafeRelative(path: string, clean: string -> string) {
    && path != "" && '\\' !in path && '\0' !in path && IsLocal(path, clean)
    && forall i :: 0 <= i < |Split(path)| ==> Split(path)[i] != "" && Split(path)[i] != "." && Split(path)[i] != ".."
  }

  /** The safe paths are exactly the lists of components, joined. */
  lemma SafeRelativeExact(path: string, clean: string -> string)
    ensures SafeRelative(path, clean) <==> forall i :: 0 <= i < |Split(path)| ==> Component(Split(path)[i])
    ensures SafeRelative(path, clean) ==> Joined(Split(path)) == path
  {
    JoinedSplit(path);
    var parts := Split(path);
    if forall i :: 0 <= i < |parts| ==> Component(parts[i]) {
      assert Component(parts[0]);
      ComponentsClean(parts);
      FirstPart(path);
      assert forall i :: 0 <= i < |parts| ==> Component(parts[i]);
      assert "." !in parts && ".." !in parts;
    }
  }

  lemma FirstPart(path: string)
    ensures path == "" || path[0] == '/' <==> Split(path)[0] == ""
  {
  }

  lemma {:induction false} ComponentsClean(parts: seq<string>)
    requires parts != [] && forall i :: 0 <= i < |parts| ==> Component(parts[i])
    ensures '\\' !in Joined(parts) && '\0' !in Joined(parts)
  {
    if |parts| > 1 {
      ComponentsClean(parts[1..]);
    }
  }

  lemma SafeJoined(parts: seq<string>, clean: string -> string)
    requires parts != [] && forall i :: 0 <= i < |parts| ==> '/' !in parts[i]
    ensures SafeRelative(Joined(parts), clean) <==> forall i :: 0 <= i < |parts| ==> Component(parts[i])
  {
    SplitJoined(parts);
    SafeRelativeExact(Joined(parts), clean);
  }

  /** Different lists of components are different paths. */
  lemma JoinedInjective(a: seq<string>, b: seq<string>)
    requires a != [] && forall i :: 0 <= i < |a| ==> '/' !in a[i]
    requires b != [] && forall i :: 0 <= i < |b| ==> '/' !in b[i]
    ensures Joined(a) == Joined(b) <==> a == b
  {
    SplitJoined(a);
    SplitJoined(b);
  }

  /** A path that is its own last element is a single component. */
  lemma BaseOnly(name: string, clean: string -> string)
    ensures SafeRelative(name, clean) && Base(name) == name <==> Component(name)
  {
    if '/' !in name {
      SafeJoined([name], clean);
      assert name[0..] == name;
    }
  }
}
