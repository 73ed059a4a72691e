/** File paths as text: cleaning, joining, and the test that keeps an archive entry inside its
    destination (internal/core/backup/orchestrate.go, on path/filepath's rules). */
module Paths {
  import opened Prelude
  import opened Text

  type Path = seq<string>

  /** A name a directory can hold. */
  predicate IsName(n: string) {
    n != "" && n != "." && n != ".." && '/' !in n
  }

  predicate AreNames(p: Path) {
    forall n :: n in p ==> IsName(n)
  }

  /** Follow one part of a path: a blank or a dot stays, a double dot goes up. */
  function Follow(at: Path, part: string, absolute: bool): Path {
    if part == "" || part == "." then at
    else if part != ".." then at + [part]
    else if at != [] && Last(at) != ".." then at[..|at| - 1]
    else if absolute then at
    else at + [".."]
  }

  function Resolve(at: Path, parts: seq<string>, absolute: bool): Path
    decreases |parts|
  {
    if parts == [] then at else Resolve(Follow(at, parts[0], absolute), parts[1..], absolute)
  }

  function Render(absolute: bool, p: Path): string {
    if p == [] then if absolute then "/" else "." else (if absolute then "/" else "") + Join(p, "/")
  }

  predicate IsAbsolute(text: string) {
    text != "" && text[0] == '/'
  }

  /** filepath.Clean */
  function Clean(text: string): string {
    Render(IsAbsolute(text), Resolve([], Split(text, '/'), IsAbsolute(text)))
  }

  /** Names, after any number of double dots where the path is relative: what cleaning leaves. */
  predicate IsClean(p: Path, absolute: bool) {
    && (forall n :: n in p ==> IsName(n) || (n == ".." && !absolute))
    && (forall i, j :: 0 <= i < j < |p| && p[j] == ".." ==> p[i] == "..")
  }

  /** A clean directory other than "." and "/". */
  datatype Root = Root(absolute: bool, path: Path) {
    predicate Valid() {
      path != [] && IsClean(path, absolute)
    }

    /** One with a name of its own, not made of double dots only. */
    predicate Named() {
      Valid() && IsName(Last(path))
    }

    function Text(): string {
      Render(absolute, path)
    }
  }

  /** Where a name leads from `root`: filepath.Join of the two, as text and as a path. */
  function TargetText(root: Root, name: string): string {
    Clean(root.Text() + "/" + name)
  }

  function Target(root: Root, name: string): Path {
    Resolve(root.path, Split(name, '/'), root.absolute)
  }

  /** untar's test on the text of a target. */
  predicate Inside(root: Root, target: string) {
    target == root.Text() || HasPrefix(target, root.Text() + "/")
  }

  lemma {:induction false} ResolveNames(at: Path, parts: seq<string>, absolute: bool)
    requires AreNames(parts)
    ensures Resolve(at, parts, absolute) == at + parts
    decreases |parts|
  {
    if parts != [] {
      assert parts[0] in parts;
      ResolveNames(at + [parts[0]], parts[1..], absolute);
      assert at + [parts[0]] + parts[1..] == at + parts;
    }
  }

  lemma {:induction false} ResolveClean(at: Path, parts: seq<string>, absolute: bool)
    requires IsClean(at + parts, absolute)
    ensures Resolve(at, parts, absolute) == at + parts
    decreases |parts|
  {
    if parts != [] {
      var whole := at + parts;
      assert whole[|at|] == parts[0] && parts[0] in whole;
      assert at != [] ==> whole[|at| - 1] == Last(at);
      assert at + [parts[0]] + parts[1..] == whole;
      ResolveClean(at + [parts[0]], parts[1..], absolute);
    }
  }

  /** Resolving keeps a path clean, so below a name there are only names. */
  lemma {:induction false} ResolvedIsClean(at: Path, parts: seq<string>, absolute: bool)
    requires IsClean(at, absolute) && forall n :: n in parts ==> '/' !in n
    ensures IsClean(Resolve(at, parts, absolute), absolute)
    decreases |parts|
  {
    if parts != [] {
      assert parts[0] in parts;
      FollowIsClean(at, parts[0], absolute);
      ResolvedIsClean(Follow(at, parts[0], absolute), parts[1..], absolute);
    }
  }

  lemma FollowIsClean(at: Path, part: string, absolute: bool)
    requires IsClean(at, absolute) && '/' !in part
    ensures IsClean(Follow(at, part, absolute), absolute)
  {
  }

  lemma {:induction false} ResolveConcat(at: Path, a: seq<string>, b: seq<string>, absolute: bool)
    ensures Resolve(at, a + b, absolute) == Resolve(Resolve(at, a, absolute), b, absolute)
    decreases |a|
  {
    if a == [] {
      assert a + b == b;
    } else {
      assert (a + b)[1..] == a[1..] + b && (a + b)[0] == a[0];
      ResolveConcat(Follow(at, a[0], absolute), a[1..], b, absolute);
    }
  }

  lemma {:induction false} SplitOfJoin(p: Path)
    requires p != [] && forall n :: n in p ==> '/' !in n
    ensures Split(Join(p, "/"), '/') == p
  {
    assert p[0] in p;
    SplitWhole(p[0], '/');
    if |p| > 1 {
      SplitOfJoin(p[1..]);
      assert Join(p, "/") == p[0] + ['/'] + Join(p[1..], "/");
      SplitAt(p[0], Join(p[1..], "/"), '/');
    }
  }

  lemma {:induction false} JoinConcat(a: Path, b: Path)
    requires a != [] && b != []
    ensures Join(a + b, "/") == Join(a, "/") + "/" + Join(b, "/")
    decreases |a|
  {
    assert (a + b)[1..] == a[1..] + b && (a + b)[0] == a[0];
    if |a| == 1 {
      assert a[1..] + b == b;
    } else {
      JoinConcat(a[1..], b);
    }
  }

  lemma {:induction false} JoinOfNames(p: Path)
    requires p != [] && forall n :: n in p ==> n != "" && '/' !in n
    ensures Join(p, "/") != "" && Join(p, "/")[0] != '/'
  {
    assert p[0] in p;
    assert p[0][0] in p[0];
  }

  lemma TargetParts(root: Root, name: string)
    requires root.Valid()
    ensures var text := root.Text() + "/" + name;
            && IsAbsolute(text) == root.absolute
            && Split(text, '/') == (if root.absolute then [""] else []) + (root.path + Split(name, '/'))
  {
    var base := Join(root.path, "/");
    SplitOfJoin(root.path);
    JoinOfNames(root.path);
    SplitAt(base, name, '/');
    if root.absolute {
      assert root.Text() + "/" + name == "" + ['/'] + (base + ['/'] + name);
      SplitWhole("", '/');
      SplitAt("", base + ['/'] + name, '/');
    } else {
      assert root.Text() + "/" + name == base + ['/'] + name;
      assert [] + (root.path + Split(name, '/')) == root.path + Split(name, '/');
    }
    hide Split, Join;
  }

  lemma BlankStays(parts: seq<string>, absolute: bool)
    ensures Resolve([], [""] + parts, absolute) == Resolve([], parts, absolute)
    ensures [] + parts == parts
  {
    assert ([""] + parts)[1..] == parts;
  }

  /** The text and the path of a target are the same place. */
  lemma TargetTextIsTarget(root: Root, name: string)
    requires root.Valid()
    ensures TargetText(root, name) == Render(root.absolute, Target(root, name))
    ensures IsClean(Target(root, name), root.absolute)
  {
    TargetParts(root, name);
    BlankStays(root.path + Split(name, '/'), root.absolute);
    assert [] + root.path == root.path;
    ResolveClean([], root.path, root.absolute);
    ResolveConcat([], root.path, Split(name, '/'), root.absolute);
    ResolvedIsClean(root.path, Split(name, '/'), root.absolute);
    hide Resolve, Split, Join;
  }

  lemma PrefixOfText(root: Root, target: Path)
    requires root.Valid() && root.path < target
    ensures HasPrefix(Render(root.absolute, target), root.Text() + "/")
  {
    var rest := target[|root.path|..];
    assert target == root.path + rest;
    JoinConcat(root.path, rest);
    var head := root.Text() + "/";
    assert Render(root.absolute, target) == head + Join(rest, "/");
  }

  lemma NowhereIsOutside(root: Root)
    requires root.Valid()
    ensures !Inside(root, Render(root.absolute, []))
  {
    JoinOfNames(root.path);
    SplitOfJoin(root.path);
    SplitWhole(".", '/');
    assert root.path[0] in root.path;
    assert Join(root.path, "/") != ".";
    hide Split, Join;
  }

  lemma CleanHasNoSlash(p: Path, absolute: bool)
    requires IsClean(p, absolute)
    ensures forall n :: n in p ==> '/' !in n
  {
  }

  lemma TextOfPrefix(root: Root, target: Path)
    requires root.Valid() && IsClean(target, root.absolute)
    requires Inside(root, Render(root.absolute, target))
    ensures root.path <= target
  {
    hide Split, Join, IsClean;
    NowhereIsOutside(root);
    CleanHasNoSlash(root.path, root.absolute);
    CleanHasNoSlash(target, root.absolute);
    SplitOfJoin(root.path);
    SplitOfJoin(target);
    var base, joined := Join(root.path, "/"), Join(target, "/");
    var slash := if root.absolute then "/" else "";
    var text := slash + joined;
    assert text == Render(root.absolute, target) && root.Text() == slash + base;
    assert joined == text[|slash|..] && base == root.Text()[|slash|..];
    if text != root.Text() {
      var rest := text[|root.Text() + "/"|..];
      assert text == root.Text() + "/" + rest;
      Associates(slash, base, rest);
      SplitAt(base, rest, '/');
    }
  }

  lemma Associates(a: string, b: string, c: string)
    ensures a + b + "/" + c == a + (b + ['/'] + c)
    ensures (a + (b + ['/'] + c))[|a|..] == b + ['/'] + c
  {
  }

  lemma BelowAreNames(root: Root, target: Path)
    requires root.Named() && IsClean(target, root.absolute) && root.path <= target
    ensures AreNames(target[|root.path|..])
  {
    forall n | n in target[|root.path|..] ensures IsName(n) {
      var j :| |root.path| <= j < |target| && target[j] == n;
      assert target[|root.path| - 1] == Last(root.path);
    }
  }

  /** The test on text lets through exactly the names whose path goes on from the root's; of a named root
      those are the root and what is reached from it by names alone. */
  lemma InsideExactly(root: Root, name: string)
    requires root.Valid()
    ensures Inside(root, TargetText(root, name)) <==> root.path <= Target(root, name)
    ensures root.Named() && root.path <= Target(root, name) ==> AreNames(Target(root, name)[|root.path|..])
  {
    hide Resolve, Split, Join;
    TargetTextIsTarget(root, name);
    var target := Target(root, name);
    if root.path <= target {
      if root.Named() {
        BelowAreNames(root, target);
      }
      if root.path != target {
        PrefixOfText(root, target);
      }
    }
    if Inside(root, TargetText(root, name)) {
      TextOfPrefix(root, target);
    }
  }

  /** A double dot undoes the name before it, and from the root itself goes to the directory above. */
  lemma DoubleDotUndoes(root: Root, name: string, rest: string)
    requires root.Valid() && IsName(name)
    ensures Target(root, name + "/../" + rest) == Target(root, rest)
    ensures root.Named() ==> Target(root, "..") == root.path[..|root.path| - 1]
  {
    var tail := ".." + ['/'] + rest;
    SplitWhole(name, '/');
    SplitWhole("..", '/');
    SplitAt(name, tail, '/');
    SplitAt("..", rest, '/');
    assert name + "/../" + rest == name + ['/'] + tail;
    var parts := Split(name + "/../" + rest, '/');
    hide Split;
    assert parts == [name] + ([".."] + Split(rest, '/'));
    var at := root.path + [name];
    assert parts[1..] == [".."] + Split(rest, '/') && parts[1..][1..] == Split(rest, '/');
    assert Last(at) == name && at[..|at| - 1] == root.path;
    assert Follow(root.path, name, root.absolute) == at && Follow(at, "..", root.absolute) == root.path;
    assert Resolve(at, parts[1..], root.absolute) == Resolve(root.path, Split(rest, '/'), root.absolute);
    assert [".."][1..] == [];
  }

  /** The root, or what is reached from it by names alone. */
  predicate IsBelow(root: Root, target: Path) {
    root.path <= target && AreNames(target[|root.path|..])
  }

  /** The test lets something out of the destination exactly when the destination is made of double dots
      only: ".." goes on from such a path, and up. */
  lemma LetsOutExactly(root: Root)
    requires root.Valid()
    ensures (exists name: string :: Inside(root, TargetText(root, name)) && !IsBelow(root, Target(root, name)))
            <==> !root.Named()
  {
    if name: string :| Inside(root, TargetText(root, name)) && !IsBelow(root, Target(root, name)) {
      InsideExactly(root, name);
    }
    if !root.Named() {
      assert Last(root.path) in root.path;
      SplitWhole("..", '/');
      assert Target(root, "..") == root.path + [".."] by {
        assert [".."][1..] == [];
      }
      InsideExactly(root, "..");
      var rest := Target(root, "..")[|root.path|..];
      assert rest == [".."] && ".." in rest;
    }
  }

  /** Where the destination is "." or "/" itself the test refuses every entry but the destination. */
  lemma BareRootRefusesExactly(absolute: bool, name: string)
    ensures Inside(Root(absolute, []), TargetText(Root(absolute, []), name)) <==> Target(Root(absolute, []), name) == []
  {
    var root := Root(absolute, []);
    var target := Target(root, name);
    BareTarget(absolute, name);
    hide Resolve, Split;
    if target != [] {
      forall n | n in target ensures n != "" && n != "." && '/' !in n {
        assert IsName(n) || n == "..";
      }
      BareIsNoPrefix(absolute, target);
    }
  }

  lemma BareTarget(absolute: bool, name: string)
    ensures TargetText(Root(absolute, []), name) == Render(absolute, Target(Root(absolute, []), name))
    ensures IsClean(Target(Root(absolute, []), name), absolute)
  {
    ResolvedIsClean([], Split(name, '/'), absolute);
    var start := if absolute then ["", ""] else ["."];
    SplitWhole("", '/');
    SplitWhole(".", '/');
    if absolute {
      SplitAt("", "/" + name, '/');
      SplitAt("", name, '/');
      assert "/" + "/" + name == "" + ['/'] + ("/" + name) && "/" + name == "" + ['/'] + name;
      assert [""] + ([""] + Split(name, '/')) == start + Split(name, '/');
    } else {
      SplitAt(".", name, '/');
      assert "." + "/" + name == "." + ['/'] + name;
    }
    ResolveConcat([], start, Split(name, '/'), absolute);
    assert Resolve([], start, absolute) == [] by {
      if absolute {
        assert start[1..] == [""] && [""][1..] == [];
      } else {
        assert start[1..] == [];
      }
    }
    hide Split, Resolve;
  }

  lemma StartsWithDot(s: string)
    ensures HasPrefix(s, "./") ==> Split(s, '/')[0] == "."
  {
    if HasPrefix(s, "./") {
      SplitWhole(".", '/');
      SplitAt(".", s[2..], '/');
      assert s == "." + ['/'] + s[2..];
    }
  }

  lemma BareIsNoPrefix(absolute: bool, target: Path)
    requires target != [] && forall n :: n in target ==> n != "" && n != "." && '/' !in n
    ensures !Inside(Root(absolute, []), Render(absolute, target))
  {
    JoinOfNames(target);
    SplitOfJoin(target);
    assert target[0] in target;
    hide Split, Join;
    var joined := Join(target, "/");
    if absolute {
      var text := "/" + joined;
      assert Render(absolute, target) == text && text[1] == joined[0];
      assert "/" + "/" == "//" && "//"[1] == '/';
    } else {
      SplitWhole(".", '/');
      StartsWithDot(joined);
      assert Render(absolute, target) == joined && "." + "/" == "./";
    }
  }

  /** A relative path of names leads to itself below the root, with or without a final slash. */
  lemma NamesLeadBelow(root: Root, p: Path)
    requires root.Valid() && p != [] && AreNames(p)
    ensures Target(root, Join(p, "/")) == root.path + p
    ensures Target(root, Join(p, "/") + "/") == root.path + p
  {
    SplitOfJoin(p);
    ResolveNames(root.path, p, root.absolute);
    SplitAt(Join(p, "/"), "", '/');
    SplitWhole("", '/');
    assert Join(p, "/") + ['/'] + "" == Join(p, "/") + "/";
    ResolveConcat(root.path, p, [""], root.absolute);
    assert [""][1..] == [];
  }
}
