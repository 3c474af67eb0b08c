/**
 Dotted namespaces: the two loops that take them apart, in the Python and the Kotlin backend, and the
 nested Kotlin classes that are generated for one.
 */
module Namespaces {
  import opened Options

  /** i is the position of the first dot at or after `from`, the length if there is none. */
  predicate FirstDot(s: string, from: nat, i: nat) {
    from <= i <= |s| && (i < |s| ==> s[i] == '.') && forall k | from <= k < i :: s[k] != '.'
  }

  function FindDot(s: string, from: nat): (i: nat)
    requires from <= |s|
    ensures FirstDot(s, from, i)
    decreases |s| - from
  {
    if from == |s| || s[from] == '.' then from else FindDot(s, from + 1)
  }

  /** A character in front of the first component. */
  function Prefixed(c: char, parts: seq<string>): seq<string> {
    if parts == [] then [[c]] else [[c] + parts[0]] + parts[1..]
  }

  /** The components: what is between the dots; nothing follows a dot at the end. */
  function Components(s: string): (parts: seq<string>)
    ensures parts == [] <==> s == ""
  {
    if s == "" then []
    else if s[0] == '.' then [""] + Components(s[1..])
    else Prefixed(s[0], Components(s[1..]))
  }

  function Join(parts: seq<string>): string {
    if parts == [] then ""
    else if |parts| == 1 then parts[0]
    else parts[0] + "." + Join(parts[1..])
  }

  /** The components from a position on; past the end there are none. */
  function From(s: string, begin: nat): seq<string> {
    if begin >= |s| then [] else Components(s[begin..])
  }

  lemma {:induction false} Cut(s: string, begin: nat, i: nat)
    requires begin < |s| && FirstDot(s, begin, i)
    ensures From(s, begin) == [s[begin..i]] + From(s, i + 1)
    decreases |s| - begin
  {
    FromNext(s, begin);
    if s[begin] == '.' {
      assert i == begin && s[begin..begin] == "";
    } else if begin + 1 == |s| {
      assert s[begin..|s|] == [s[begin]];
    } else {
      Cut(s, begin + 1, i);
      PrefixedCons(s[begin], s[begin + 1..i], From(s, i + 1));
      CutPrefix(s, begin, i);
    }
  }

  lemma FromNext(s: string, begin: nat)
    requires begin < |s|
    ensures From(s, begin)
            == if s[begin] == '.' then [""] + From(s, begin + 1) else Prefixed(s[begin], From(s, begin + 1))
  {
    var t := s[begin..];
    assert t[0] == s[begin] && t[1..] == s[begin + 1..];
    if begin + 1 == |s| { assert t[1..] == ""; }
  }

  lemma CutPrefix(s: string, begin: nat, i: nat)
    requires begin < i <= |s|
    ensures [s[begin]] + s[begin + 1..i] == s[begin..i]
  {
  }

  lemma PrefixedCons(c: char, first: string, rest: seq<string>)
    ensures Prefixed(c, [first] + rest) == [[c] + first] + rest
  {
    assert ([first] + rest)[1..] == rest;
  }

  /** These components have been read, up to a position. */
  predicate HasRead(s: string, parts: seq<string>, begin: nat) {
    Components(s) == parts + From(s, begin)
  }

  lemma Advance(s: string, parts: seq<string>, begin: nat, i: nat)
    requires begin < |s| && HasRead(s, parts, begin) && FirstDot(s, begin, i)
    ensures HasRead(s, parts + [s[begin..i]], i + 1)
  {
    var part, rest := s[begin..i], From(s, i + 1);
    Cut(s, begin, i);
    Regroup(parts, part, rest);
  }

  lemma Regroup(parts: seq<string>, part: string, rest: seq<string>)
    ensures parts + ([part] + rest) == (parts + [part]) + rest
  {
  }

  lemma Begins(s: string)
    ensures HasRead(s, [], 0)
  {
    assert s[0..] == s;
  }

  lemma Ends(s: string, parts: seq<string>, begin: nat)
    requires HasRead(s, parts, begin) && begin >= |s|
    ensures parts == Components(s)
  {
  }

  /** The loop in the Python backend: `find` and `substr` from a moving start. */
  method ParsePython(nameSpace: string) returns (keys: seq<string>)
    ensures keys == Components(nameSpace)
  {
    keys := [];
    var begin := 0;
    Begins(nameSpace);
    while begin < |nameSpace|
      invariant HasRead(nameSpace, keys, begin)
      decreases |nameSpace| - begin
    {
      var index := FindDot(nameSpace, begin);
      Advance(nameSpace, keys, begin, index);
      keys := keys + [nameSpace[begin..index]];
      begin := index + 1;
    }
    Ends(nameSpace, keys, begin);
  }

  /** `getline` with '.': reads up to a dot, which it takes away, or to the end.  It fails if the stream
      has already hit the end, or does so without reading anything. */
  method GetLine(s: string, pos: nat, eof: bool)
    returns (ok: bool, part: string, pos': nat, eof': bool, ghost i: nat)
    requires pos <= |s|
    ensures ok == (!eof && pos < |s|)
    ensures ok ==> FirstDot(s, pos, i) && Line(s, pos, i, part, pos', eof')
  {
    if eof { return false, "", pos, true, pos; }
    var dot := FindDot(s, pos);
    part := s[pos..dot];
    eof' := dot == |s|;
    pos' := if eof' then |s| else dot + 1;
    ok := pos' > pos;
    i := dot;
  }

  /** What a `getline` that starts at `start` and finds its dot at i leaves. */
  predicate Line(s: string, start: nat, i: nat, part: string, pos: nat, eof: bool)
    requires start <= i <= |s|
  {
    part == s[start..i] && eof == (i == |s|) && pos == if eof then |s| else i + 1
  }

  /** The loop in the Kotlin backend: `getline` until it fails. */
  method ParseKotlin(nameSpace: string) returns (parts: seq<string>)
    ensures parts == Components(nameSpace)
  {
    parts := [];
    var ok, part, pos, eof;
    ghost var start, i: nat := 0, 0;
    ok, part, pos, eof, i := GetLine(nameSpace, 0, false);
    Begins(nameSpace);
    while ok
      invariant ok == (start < |nameSpace|)
      invariant ok ==> FirstDot(nameSpace, start, i) && Line(nameSpace, start, i, part, pos, eof)
      invariant HasRead(nameSpace, parts, start)
      decreases |nameSpace| - start
    {
      Advance(nameSpace, parts, start, i);
      parts := parts + [part];
      start := i + 1;
      assert eof || pos == start;
      ok, part, pos, eof, i := GetLine(nameSpace, pos, eof);
    }
    Ends(nameSpace, parts, start);
  }

  // ---- what the components mean ----

  lemma JoinPrefixed(c: char, parts: seq<string>)
    ensures Join(Prefixed(c, parts)) == [c] + Join(parts)
  {
    if |parts| > 1 {
      var all := Prefixed(c, parts);
      assert all[1..] == parts[1..];
      assert ([c] + parts[0]) + "." + Join(parts[1..]) == [c] + (parts[0] + "." + Join(parts[1..]));
    }
  }

  lemma JoinCons(p: string, parts: seq<string>)
    ensures Join([p] + parts) == if parts == [] then p else p + "." + Join(parts)
  {
    assert ([p] + parts)[1..] == parts;
  }

  /** Without the dot at the end, if there is one. */
  function Trimmed(s: string): string {
    if s != "" && s[|s| - 1] == '.' then s[..|s| - 1] else s
  }

  lemma TrimmedCons(s: string)
    requires |s| > 1
    ensures Trimmed(s) == [s[0]] + Trimmed(s[1..])
  {
    assert s[1..][|s| - 2] == s[|s| - 1];
    assert s == [s[0]] + s[1..] && s[..|s| - 1] == [s[0]] + s[1..][..|s| - 2];
  }

  /** Joining the components gives the namespace back, without its last character if that is a dot. */
  lemma {:induction false} JoinComponents(s: string)
    ensures Join(Components(s)) == Trimmed(s)
  {
    if |s| == 1 {
      assert s[1..] == "" && s == [s[0]];
    } else if s != "" {
      JoinComponents(s[1..]);
      TrimmedCons(s);
      if s[0] == '.' { JoinCons("", Components(s[1..])); } else { JoinPrefixed(s[0], Components(s[1..])); }
    }
  }

  /** No component has a dot in it. */
  lemma {:induction false} NoDots(s: string)
    ensures forall p <- Components(s) :: '.' !in p
  {
    if s != "" {
      var rest := Components(s[1..]);
      NoDots(s[1..]);
      if rest != [] { assert rest[0] in rest && forall p <- rest[1..] :: p in rest; }
    }
  }

  lemma {:induction false} ComponentsFirst(p: string, rest: string)
    requires '.' !in p
    ensures Components(p + "." + rest) == [p] + Components(rest)
  {
    var s := p + "." + rest;
    if p == "" {
      assert s[1..] == rest;
    } else {
      assert p[0] in p && forall c <- p[1..] :: c in p;
      ComponentsFirst(p[1..], rest);
      assert s[1..] == p[1..] + "." + rest;
      PrefixedCons(p[0], p[1..], Components(rest));
      assert [p[0]] + p[1..] == p;
    }
  }

  lemma {:induction false} ComponentsOnly(p: string)
    requires '.' !in p && p != ""
    ensures Components(p) == [p]
  {
    assert p[0] in p && forall c <- p[1..] :: c in p;
    assert [p[0]] + p[1..] == p;
    if |p| > 1 { ComponentsOnly(p[1..]); } else { assert p[1..] == "" && p == [p[0]]; }
  }

  /** Components survive joining and taking apart exactly if the last of them is not empty. */
  lemma {:induction false} ComponentsJoin(parts: seq<string>)
    requires forall p <- parts :: '.' !in p
    ensures Components(Join(parts)) == parts <==> parts == [] || parts[|parts| - 1] != ""
    decreases |parts|
  {
    if |parts| == 1 {
      assert parts[0] in parts && parts == [parts[0]];
      if parts[0] != "" { ComponentsOnly(parts[0]); }
    } else if |parts| > 1 {
      var rest := parts[1..];
      assert forall p <- rest :: p in parts;
      ComponentsJoin(rest);
      assert parts[0] in parts;
      ComponentsFirst(parts[0], Join(rest));
      assert parts == [parts[0]] + rest;
      assert Components(Join(parts))[1..] == Components(Join(rest));
    }
  }

  // ---- the generated Kotlin declarations ----

  /** Which native class is registered; its prefix makes the names of the generated classes different
      from those of any other. */
  type ClassId = nat

  datatype Expr = NewNativeClass(id: ClassId) | NewNamespace(id: ClassId, index: nat)

  /** `class <prefix>Namespace<index> { val <field> = <expr> }` and `val <name> = <expr>`. */
  datatype Decl = ClassDecl(id: ClassId, index: nat, field: string, init: Expr) | ValDecl(name: string, init: Expr)

  /** The loop that writes the declarations, the innermost namespace first. */
  method Generate(nameSpace: string, className: string, id: ClassId) returns (decls: seq<Decl>)
    ensures decls == Declarations(Components(nameSpace), className, id)
  {
    if nameSpace == "" {
      decls := [ValDecl(className, NewNativeClass(id))];
    } else {
      var parts := ParseKotlin(nameSpace);
      if parts == [] {
        decls := [ValDecl(className, NewNativeClass(id))];
      } else {
        decls := [];
        var offset: nat := |parts|;
        while offset > 0
          invariant offset <= |parts| && decls == Classes(parts, className, id, offset)
        {
          var index: nat := offset - 1;
          if index + 1 == |parts| {
            decls := decls + [ClassDecl(id, index, className, NewNativeClass(id))];
          } else {
            decls := decls + [ClassDecl(id, index, parts[index + 1], NewNamespace(id, index + 1))];
          }
          offset := offset - 1;
        }
        decls := decls + [ValDecl(parts[0], NewNamespace(id, 0))];
      }
    }
  }

  /** The declaration of the namespace class for component `index`. */
  function ClassFor(parts: seq<string>, className: string, id: ClassId, index: nat): Decl
    requires index < |parts|
  {
    if index + 1 == |parts| then ClassDecl(id, index, className, NewNativeClass(id))
    else ClassDecl(id, index, parts[index + 1], NewNamespace(id, index + 1))
  }

  /** The class declarations for the components from `from` on. */
  function Classes(parts: seq<string>, className: string, id: ClassId, from: nat): seq<Decl>
    requires from <= |parts|
    decreases |parts| - from
  {
    if from == |parts| then []
    else Classes(parts, className, id, from + 1) + [ClassFor(parts, className, id, from)]
  }

  function Declarations(parts: seq<string>, className: string, id: ClassId): seq<Decl> {
    if parts == [] then [ValDecl(className, NewNativeClass(id))]
    else Classes(parts, className, id, 0) + [ValDecl(parts[0], NewNamespace(id, 0))]
  }

  /** What Kotlin makes of declarations: objects with at most one field here. */
  datatype Object = NativeClass(id: ClassId) | Namespace(field: string, value: Object)

  datatype Scope = Scope(classes: map<(ClassId, nat), Object>, vals: map<string, Object>)

  /** An instance of a class that must have been declared. */
  function Eval(scope: Scope, e: Expr): Option<Object> {
    match e
    case NewNativeClass(id) => Some(NativeClass(id))
    case NewNamespace(id, i) => if (id, i) in scope.classes then Some(scope.classes[(id, i)]) else None
  }

  /** The scope after one declaration; None if it uses a class that is not declared yet.  A name that is
      declared again stands for the new value. */
  function Declare(scope: Scope, d: Decl): Option<Scope> {
    var v := Eval(scope, d.init);
    if v.None? then None
    else if d.ClassDecl? then Some(scope.(classes := scope.classes[(d.id, d.index) := Namespace(d.field, v.value)]))
    else Some(scope.(vals := scope.vals[d.name := v.value]))
  }

  /** The scope after the declarations, in order. */
  function Interpret(scope: Scope, decls: seq<Decl>): Option<Scope>
    decreases |decls|
  {
    if decls == [] then Some(scope)
    else
      var before := Interpret(scope, decls[..|decls| - 1]);
      if before.None? then None else Declare(before.value, decls[|decls| - 1])
  }

  function Select(o: Object, path: seq<string>): Option<Object>
    decreases |path|
  {
    if path == [] then Some(o)
    else if o.Namespace? && o.field == path[0] then Select(o.value, path[1..])
    else None
  }

  /** The value of a dotted path. */
  function Resolve(scope: Scope, path: seq<string>): Option<Object>
    requires path != []
  {
    if path[0] in scope.vals then Select(scope.vals[path[0]], path[1..]) else None
  }

  /** The instance of the namespace class for component `from`: the rest of the path inside it. */
  function Nested(path: seq<string>, id: ClassId, from: nat): (o: Object)
    requires from <= |path|
    decreases |path| - from
  {
    if from == |path| then NativeClass(id) else Namespace(path[from], Nested(path, id, from + 1))
  }

  lemma {:induction false} SelectNested(path: seq<string>, id: ClassId, from: nat, to: nat)
    requires from <= to <= |path|
    ensures Select(Nested(path, id, from), path[from..to]) == Some(Nested(path, id, to))
    decreases |path| - from
  {
    if from < to {
      assert path[from..to][0] == path[from] && path[from..to][1..] == path[from + 1..to];
      SelectNested(path, id, from + 1, to);
    }
  }

  /** No other class is found inside. */
  lemma {:induction false} OnlyItself(path: seq<string>, id: ClassId, from: nat, q: seq<string>, other: ClassId)
    requires from <= |path| && Select(Nested(path, id, from), q) == Some(NativeClass(other))
    ensures other == id
    decreases |path| - from
  {
    if q != [] { OnlyItself(path, id, from + 1, q[1..], other); }
  }

  /** The namespace classes from `from` to `to` are declared, each leading to the next component. */
  predicate Declared(classes: map<(ClassId, nat), Object>, path: seq<string>, id: ClassId, from: nat, to: nat)
    requires to < |path|
  {
    forall i: nat | from <= i < to :: (id, i) in classes && classes[(id, i)] == Nested(path, id, i + 1)
  }

  lemma {:induction false} ClassesDeclared(scope: Scope, parts: seq<string>, className: string, id: ClassId, from: nat)
    requires from <= |parts|
    ensures var r := Interpret(scope, Classes(parts, className, id, from));
            r.Some? && r.value.vals == scope.vals && Declared(r.value.classes, parts + [className], id, from, |parts|)
    decreases |parts| - from
  {
    if from < |parts| {
      ClassesDeclared(scope, parts, className, id, from + 1);
      var before := Interpret(scope, Classes(parts, className, id, from + 1)).value;
      InterpretLast(scope, Classes(parts, className, id, from + 1), ClassFor(parts, className, id, from));
      InstanceOfNext(before, parts, className, id, from);
    }
  }

  lemma InstanceOfNext(scope: Scope, parts: seq<string>, className: string, id: ClassId, from: nat)
    requires from < |parts| && Declared(scope.classes, parts + [className], id, from + 1, |parts|)
    ensures var d := ClassFor(parts, className, id, from);
            var v := Eval(scope, d.init);
            v.Some? && Namespace(d.field, v.value) == Nested(parts + [className], id, from + 1)
  {
    var path := parts + [className];
    assert Nested(path, id, |path|) == NativeClass(id);
  }

  lemma InterpretLast(scope: Scope, before: seq<Decl>, d: Decl)
    ensures Interpret(scope, before + [d])
            == var s := Interpret(scope, before); if s.None? then None else Declare(s.value, d)
  {
    assert (before + [d])[..|before|] == before;
  }

  /** What one registration declares: one name, whose value holds the rest of the path. */
  lemma OneName(scope: Scope, nameSpace: string, className: string, id: ClassId)
    ensures var parts := Components(nameSpace);
            var path := parts + [className];
            var r := Interpret(scope, Declarations(parts, className, id));
            r.Some? && r.value.vals == scope.vals[path[0] := Nested(path, id, 1)]
  {
    var parts := Components(nameSpace);
    var path := parts + [className];
    if parts == [] {
      var decls := Declarations(parts, className, id);
      assert decls[..0] == [] && Interpret(scope, decls) == Declare(scope, decls[0]);
    } else {
      ClassesDeclared(scope, parts, className, id, 0);
      InterpretLast(scope, Classes(parts, className, id, 0), ValDecl(parts[0], NewNamespace(id, 0)));
      assert Declared(Interpret(scope, Classes(parts, className, id, 0)).value.classes, path, id, 0, |parts|);
    }
  }

  /** The generated declarations never use a class before its declaration.  They declare one name, and
      under it the full dotted path leads to the native class, and each shorter one to a namespace. */
  lemma PathLeadsToClass(scope: Scope, nameSpace: string, className: string, id: ClassId)
    ensures var parts := Components(nameSpace);
            var path := parts + [className];
            var r := Interpret(scope, Declarations(parts, className, id));
            && r.Some?
            && r.value.vals.Keys == scope.vals.Keys + {path[0]}
            && (forall name <- scope.vals.Keys :: name != path[0] ==> r.value.vals[name] == scope.vals[name])
            && Resolve(r.value, path) == Some(NativeClass(id))
            && (forall n | 1 <= n < |path| ::
                  Resolve(r.value, path[..n]).Some? && Resolve(r.value, path[..n]).value.Namespace?)
  {
    OneName(scope, nameSpace, className, id);
    var parts := Components(nameSpace);
    PrefixesResolve(Interpret(scope, Declarations(parts, className, id)).value, parts + [className], id);
  }

  /** A class registered before keeps its path exactly if that begins with another name: a registration
      under the same first component hides whatever was there. */
  lemma EarlierPathSurvives(scope: Scope, earlier: seq<string>, other: ClassId,
                            nameSpace: string, className: string, id: ClassId)
    requires earlier != [] && Resolve(scope, earlier) == Some(NativeClass(other)) && other != id
    ensures var parts := Components(nameSpace);
            var after := Interpret(scope, Declarations(parts, className, id));
            && after.Some?
            && (Resolve(after.value, earlier) == Some(NativeClass(other)) <==> earlier[0] != (parts + [className])[0])
  {
    OneName(scope, nameSpace, className, id);
    var path := Components(nameSpace) + [className];
    if earlier[0] == path[0] && Select(Nested(path, id, 1), earlier[1..]) == Some(NativeClass(other)) {
      OnlyItself(path, id, 1, earlier[1..], other);
    }
  }

  lemma PrefixesResolve(scope: Scope, path: seq<string>, id: ClassId)
    requires path != [] && path[0] in scope.vals && scope.vals[path[0]] == Nested(path, id, 1)
    ensures Resolve(scope, path) == Some(NativeClass(id))
    ensures forall n | 1 <= n < |path| :: Resolve(scope, path[..n]).Some? && Resolve(scope, path[..n]).value.Namespace?
  {
    forall n | 1 <= n <= |path|
      ensures Resolve(scope, path[..n]) == Some(Nested(path, id, n))
    {
      SelectNested(path, id, 1, n);
      assert path[..n][1..] == path[1..n];
    }
    assert path[..|path|] == path;
  }

  // ---- which declarations can be printed ----

  /** The declarations are Kotlin text: every name in them is an identifier. */
  predicate Printable(decls: seq<Decl>, identifier: string -> bool) {
    forall d <- decls :: identifier(Name(d))
  }

  function Name(d: Decl): string {
    if d.ClassDecl? then d.field else d.name
  }

  lemma PrintableAppend(before: seq<Decl>, d: Decl, identifier: string -> bool)
    ensures Printable(before + [d], identifier) <==> Printable(before, identifier) && identifier(Name(d))
  {
    assert forall x :: x in before + [d] <==> x in before || x == d;
  }

  predicate Identifiers(parts: seq<string>, from: nat, identifier: string -> bool) {
    forall k | from <= k < |parts| :: identifier(parts[k])
  }

  lemma {:induction false} PrintableClasses(parts: seq<string>, className: string, id: ClassId, from: nat,
                                            identifier: string -> bool)
    requires from <= |parts|
    ensures Printable(Classes(parts, className, id, from), identifier)
            <==> from == |parts| || (identifier(className) && Identifiers(parts, from + 1, identifier))
    decreases |parts| - from
  {
    if from < |parts| {
      PrintableClasses(parts, className, id, from + 1, identifier);
      PrintableAppend(Classes(parts, className, id, from + 1), ClassFor(parts, className, id, from), identifier);
    }
  }

  /** The generated declarations can be printed exactly if the class name and every component of its
      namespace are identifiers. */
  lemma PrintableExactly(nameSpace: string, className: string, id: ClassId, identifier: string -> bool)
    ensures Printable(Declarations(Components(nameSpace), className, id), identifier)
            <==> identifier(className) && forall p <- Components(nameSpace) :: identifier(p)
  {
    var parts := Components(nameSpace);
    if parts == [] {
      PrintableAppend([], ValDecl(className, NewNativeClass(id)), identifier);
    } else {
      PrintableClasses(parts, className, id, 0, identifier);
      PrintableAppend(Classes(parts, className, id, 0), ValDecl(parts[0], NewNamespace(id, 0)), identifier);
      assert (forall p <- parts :: identifier(p)) <==> identifier(parts[0]) && Identifiers(parts, 1, identifier);
    }
  }

  predicate TwoDots(s: string) {
    exists i | 0 <= i < |s| - 1 :: s[i] == '.' && s[i + 1] == '.'
  }

  lemma TwoDotsNext(s: string)
    requires s != ""
    ensures TwoDots(s) <==> (|s| > 1 && s[0] == '.' && s[1] == '.') || TwoDots(s[1..])
  {
    var t := s[1..];
    if TwoDots(t) {
      var i :| 0 <= i < |t| - 1 && t[i] == '.' && t[i + 1] == '.';
      assert s[i + 1] == '.' && s[i + 1 + 1] == '.';
    }
    if TwoDots(s) {
      var i :| 0 <= i < |s| - 1 && s[i] == '.' && s[i + 1] == '.';
      if i > 0 { assert t[i - 1] == '.' && t[i - 1 + 1] == '.'; }
    }
  }

  /** An empty component, which is no identifier of any language, comes exactly from a dot at the
      beginning or after another dot; a dot at the end makes none. */
  lemma {:induction false} EmptyComponent(s: string)
    ensures "" in Components(s) <==> s != "" && (s[0] == '.' || TwoDots(s))
    ensures s != "" ==> ("" in Components(s)[1..] <==> TwoDots(s))
  {
    if s != "" {
      var t, rest := s[1..], Components(s[1..]);
      EmptyComponent(t);
      TwoDotsNext(s);
      if s[0] == '.' {
        assert Components(s)[0] == "" && Components(s)[1..] == rest;
      } else if rest != [] {
        assert Components(s) == [[s[0]] + rest[0]] + rest[1..] && Components(s)[1..] == rest[1..];
      }
    }
  }
}
