/**
 Python's module search paths: a list kept as one string with a separator of one character between
 its elements.
 */
module SearchPaths {
  import opened Options

  /** The list written as one string. */
  function Joined(sep: char, paths: seq<string>): string {
    if paths == [] then ""
    else if |paths| == 1 then paths[0]
    else Joined(sep, paths[..|paths| - 1]) + [sep] + paths[|paths| - 1]
  }

  /** The pieces between separators; there is one more of them than separators. */
  function Pieces(sep: char, s: string): (pieces: seq<string>)
    ensures pieces != []
  {
    if s == "" then [""]
    else
      var rest := Pieces(sep, s[1..]);
      if s[0] == sep then [""] + rest else [[s[0]] + rest[0]] + rest[1..]
  }

  function Split(sep: char, s: string): seq<string> {
    if s == "" then [] else Pieces(sep, s)
  }

  /** `find`: the position of the first separator. */
  function Find(sep: char, s: string): (pos: Option<nat>)
    ensures pos.Some? ==> pos.value < |s| && s[pos.value] == sep && sep !in s[..pos.value]
    ensures pos.None? <==> sep !in s
  {
    if s == "" then None
    else if s[0] == sep then Some(0)
    else
      match Find(sep, s[1..])
      case None => None
      case Some(p) =>
        assert s[..p + 1] == [s[0]] + s[1..][..p];
        Some(p + 1)
  }

  /** `SplitStrWithPattern` with a pattern of one character: a separator is put at the end, and the loop
      cuts the string at the first separator as long as there is one. */
  method SplitStrWithPattern(str: string, pattern: char) returns (resVec: seq<string>)
    ensures resVec == Split(pattern, str)
  {
    resVec := [];
    if str == "" { return; }
    var strs := str + [pattern];
    var pos := Find(pattern, strs);
    assert strs[..|strs| - 1] == str;
    assert Left(pattern, strs) == Pieces(pattern, str);
    while pos.Some?
      invariant pos == Find(pattern, strs) && Terminated(pattern, strs)
      invariant Pieces(pattern, str) == resVec + Left(pattern, strs)
      decreases |strs|
    {
      CutPieces(pattern, strs, pos.value);
      ghost var left := Left(pattern, strs[pos.value + 1..]);
      assert resVec + ([strs[..pos.value]] + left) == (resVec + [strs[..pos.value]]) + left;
      resVec := resVec + [strs[..pos.value]];
      strs := strs[pos.value + 1..];
      pos := Find(pattern, strs);
    }
    LastIsSeparator(pattern, strs);
  }

  lemma LastIsSeparator(sep: char, strs: string)
    requires Terminated(sep, strs)
    ensures strs != "" ==> sep in strs
  {
    if strs != "" { assert strs[|strs| - 1] in strs; }
  }

  predicate Terminated(sep: char, strs: string) {
    strs != "" ==> strs[|strs| - 1] == sep
  }

  /** The pieces still to be cut off a string that ends in a separator. */
  function Left(sep: char, strs: string): seq<string> {
    if strs == "" then [] else Pieces(sep, strs[..|strs| - 1])
  }

  lemma {:induction false} CutPieces(sep: char, strs: string, pos: nat)
    requires Find(sep, strs) == Some(pos) && Terminated(sep, strs)
    ensures Left(sep, strs) == [strs[..pos]] + Left(sep, strs[pos + 1..])
    ensures Terminated(sep, strs[pos + 1..])
    decreases |strs|
  {
    var front := strs[..|strs| - 1];
    if pos > 0 {
      assert front[1..] == strs[1..][..|strs| - 2];
      CutPieces(sep, strs[1..], pos - 1);
      assert strs[..pos] == [strs[0]] + strs[1..][..pos - 1];
      assert strs[1..][pos..] == strs[pos + 1..];
    } else if |strs| > 1 {
      assert front[1..] == strs[1..][..|strs| - 2];
    }
  }

  // ---- round trips ----

  lemma {:induction false} JoinedCons(sep: char, first: string, rest: seq<string>)
    requires rest != []
    ensures Joined(sep, [first] + rest) == first + [sep] + Joined(sep, rest)
    decreases |rest|
  {
    var all := [first] + rest;
    if |rest| == 1 {
      assert all[..1] == [first];
    } else {
      JoinedCons(sep, first, rest[..|rest| - 1]);
      assert all[..|all| - 1] == [first] + rest[..|rest| - 1];
    }
  }

  lemma JoinedPrefix(sep: char, c: char, rest: seq<string>)
    requires rest != []
    ensures Joined(sep, [[c] + rest[0]] + rest[1..]) == [c] + Joined(sep, rest)
  {
    if |rest| > 1 {
      JoinedCons(sep, rest[0], rest[1..]);
      JoinedCons(sep, [c] + rest[0], rest[1..]);
      assert rest == [rest[0]] + rest[1..];
    }
  }

  lemma {:induction false} JoinPieces(sep: char, s: string)
    ensures Joined(sep, Pieces(sep, s)) == s
    decreases |s|
  {
    if s != "" {
      var rest := Pieces(sep, s[1..]);
      JoinPieces(sep, s[1..]);
      if s[0] == sep { JoinedCons(sep, "", rest); } else { JoinedPrefix(sep, s[0], rest); }
    }
  }

  lemma {:induction false} PiecesClean(sep: char, s: string)
    ensures forall p <- Pieces(sep, s) :: sep !in p
    decreases |s|
  {
    if s != "" {
      var rest := Pieces(sep, s[1..]);
      PiecesClean(sep, s[1..]);
      assert rest[0] in rest && forall p <- rest[1..] :: p in rest;
    }
  }

  /** Splitting loses nothing, and no element of the list has a separator in it. */
  lemma JoinSplit(sep: char, s: string)
    ensures Joined(sep, Split(sep, s)) == s
    ensures forall p <- Split(sep, s) :: sep !in p
  {
    JoinPieces(sep, s);
    PiecesClean(sep, s);
  }

  lemma {:induction false} PiecesMore(sep: char, s: string, p: string)
    requires sep !in p
    ensures Pieces(sep, s + [sep] + p) == Pieces(sep, s) + [p]
    decreases |s|
  {
    if s == "" {
      PieceOnly(sep, p);
      assert s + [sep] + p == [sep] + p;
    } else {
      PiecesMore(sep, s[1..], p);
      assert (s + [sep] + p)[1..] == s[1..] + [sep] + p;
    }
  }

  lemma {:induction false} PieceOnly(sep: char, p: string)
    requires sep !in p
    ensures Pieces(sep, p) == [p]
  {
    if p != "" {
      assert p[0] in p && forall c <- p[1..] :: c in p;
      PieceOnly(sep, p[1..]);
      assert [p[0]] + p[1..] == p;
    }
  }

  lemma {:induction false} PiecesJoin(sep: char, paths: seq<string>)
    requires paths != [] && forall p <- paths :: sep !in p
    ensures Pieces(sep, Joined(sep, paths)) == paths
  {
    var last := paths[|paths| - 1];
    assert last in paths;
    if |paths| == 1 {
      PieceOnly(sep, last);
    } else {
      var front := paths[..|paths| - 1];
      assert forall p <- front :: p in paths;
      PiecesJoin(sep, front);
      PiecesMore(sep, Joined(sep, front), last);
    }
  }

  lemma JoinedEmpty(sep: char, paths: seq<string>)
    ensures Joined(sep, paths) == "" <==> paths == [] || paths == [""]
  {
  }

  /** A list comes back exactly if no element has a separator in it and it is not one empty path. */
  lemma SplitJoin(sep: char, paths: seq<string>)
    ensures Split(sep, Joined(sep, paths)) == paths <==> (forall p <- paths :: sep !in p) && paths != [""]
  {
    JoinedEmpty(sep, paths);
    JoinSplit(sep, Joined(sep, paths));
    if (forall p <- paths :: sep !in p) && paths != [] { PiecesJoin(sep, paths); }
  }

  /** Adding a path appends exactly it, if and only if there is a path already and the new one has no
      separator in it. */
  lemma AddAppends(sep: char, setting: string, path: string)
    ensures Split(sep, setting + [sep] + path) == Split(sep, setting) + [path] <==> setting != "" && sep !in path
  {
    var added := setting + [sep] + path;
    JoinSplit(sep, added);
    assert path in Split(sep, setting) + [path];
    if sep !in path {
      PiecesMore(sep, setting, path);
      if setting == "" { assert |Split(sep, added)| == 2; }
    } else {
      assert path !in Split(sep, added);
    }
  }

  /** The first path added to no paths at all has an empty path before it. */
  lemma AddToNone(sep: char, path: string)
    requires sep !in path
    ensures Split(sep, "" + [sep] + path) == ["", path]
  {
    PiecesMore(sep, "", path);
  }

  // ---- the settings ----

  /** `setting` is the global string; `interpreterPath` is what Python was given last. */
  class Settings {
    const sep: char
    var setting: string
    var interpreterPath: Option<string>

    predicate Valid()
      reads this
    {
      interpreterPath.Some? ==> interpreterPath.value == setting
    }

    constructor (sep: char)
      ensures this.sep == sep && setting == "" && Valid()
    {
      this.sep, setting, interpreterPath := sep, "", None;
    }

    method SetModuleSearchPaths(paths: seq<string>)
      modifies this
      ensures Valid() && setting == Joined(sep, paths) && interpreterPath == Some(setting)
    {
      if paths == [] { setting := ""; } else { setting := paths[0]; }
      var i := 1;
      while i < |paths|
        invariant paths != [] ==> 1 <= i <= |paths| && setting == Joined(sep, paths[..i])
        invariant paths == [] ==> setting == ""
      {
        assert paths[..i + 1][..i] == paths[..i];
        setting := setting + [sep] + paths[i];
        i := i + 1;
      }
      if paths != [] { assert paths[..i] == paths; }
      interpreterPath := Some(setting);
    }

    /** Adding the empty path is ignored. */
    method AddModuleSearchPath(path: string)
      requires Valid()
      modifies this
      ensures Valid()
      ensures setting == if path == "" then old(setting) else old(setting) + [sep] + path
      ensures path != "" ==>
                (Split(sep, setting) == Split(sep, old(setting)) + [path] <==> old(setting) != "" && sep !in path)
    {
      if path == "" { return; }
      AddAppends(sep, setting, path);
      setting := setting + [sep] + path;
      interpreterPath := Some(setting);
    }

    method GetModuleSearchPaths() returns (paths: seq<string>)
      requires Valid()
      ensures paths == Split(sep, setting)
    {
      paths := SplitStrWithPattern(if interpreterPath.Some? then interpreterPath.value else setting, sep);
    }

    /** What is set is what is read. */
    method SetThenGet(paths: seq<string>) returns (read: seq<string>)
      modifies this
      ensures read == paths <==> (forall p <- paths :: sep !in p) && paths != [""]
    {
      SetModuleSearchPaths(paths);
      read := GetModuleSearchPaths();
      SplitJoin(sep, paths);
    }
  }
}
