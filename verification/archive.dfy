/**
 A snapshot directory as an archive and back (internal/core/backup/git.go, orchestrate.go):
 tarDir's entries, untar's extraction, and the verification of what was sealed before it is put.
 */
module SnapshotArchive {
  import opened Prelude
  import opened Text
  import opened Paths

  datatype Tree = Leaf(content: string) | Node(children: seq<Child>)

  datatype Child = Child(name: string, tree: Tree)

  /** A directory's names are names, and no two are the same. */
  predicate WellFormed(children: seq<Child>) {
    children == [] || (
      && IsName(children[0].name)
      && (forall c :: c in children[1..] ==> c.name != children[0].name)
      && (children[0].tree.Node? ==> WellFormed(children[0].tree.children))
      && WellFormed(children[1..]))
  }

  datatype Entry = File(content: string) | Directory

  function EntryOf(t: Tree): Entry {
    if t.Leaf? then File(t.content) else Directory
  }

  /** What a tree holds at a path below it. */
  function Lookup(children: seq<Child>, p: Path): Option<Entry>
    decreases children
  {
    if children == [] || p == [] then None
    else if children[0].name != p[0] then Lookup(children[1..], p)
    else if |p| == 1 then Some(EntryOf(children[0].tree))
    else if children[0].tree.Node? then Lookup(children[0].tree.children, p[1..])
    else None
  }

  // tarDir.

  datatype Header = Header(name: string, isDir: bool, content: string)

  function HeaderOf(p: Path, t: Tree): Header
    requires p != []
  {
    if t.Leaf? then Header(Join(p, "/"), false, t.content) else Header(Join(p, "/") + "/", true, "")
  }

  /** tarWalk: each entry before what is below it; the walk's own start has no header. */
  function Walk(at: Path, children: seq<Child>): seq<Header>
    decreases children
  {
    if children == [] then []
    else
      var p, t := at + [children[0].name], children[0].tree;
      [HeaderOf(p, t)] + (if t.Node? then Walk(p, t.children) else []) + Walk(at, children[1..])
  }

  class TarWriter {
    var headers: seq<Header>

    constructor ()
      ensures headers == []
    {
      headers := [];
    }

    method TarWalk(at: Path, children: seq<Child>)
      modifies this
      ensures headers == old(headers) + Walk(at, children)
      decreases children
    {
      hide HeaderOf, Walk;
      WalkUnfolds(at, children);
      if children != [] {
        var p, t := at + [children[0].name], children[0].tree;
        headers := headers + [HeaderOf(p, t)];
        ghost var below := if t.Node? then Walk(p, t.children) else [];
        if t.Node? {
          TarWalk(p, t.children);
        }
        assert headers == old(headers) + ([HeaderOf(p, t)] + below);
        TarWalk(at, children[1..]);
      }
    }
  }

  lemma WalkUnfolds(at: Path, children: seq<Child>)
    ensures Walk(at, children) ==
            if children == [] then []
            else
              var p, t := at + [children[0].name], children[0].tree;
              ([HeaderOf(p, t)] + if t.Node? then Walk(p, t.children) else []) + Walk(at, children[1..])
  {
    hide HeaderOf;
  }

  // untar.

  type Entries = map<Path, Entry>

  datatype Failure = Escapes(name: string) | NotADirectory | IsADirectory | Undecryptable

  /** MkdirAll: every directory on the way, unless a file is. */
  function Made(disk: Entries, p: Path): Option<Entries>
    decreases |p|
  {
    if p == [] then Some(disk)
    else
      var above := Made(disk, p[..|p| - 1]);
      if above.None? then None
      else if p !in above.value then Some(above.value[p := Directory])
      else if above.value[p].Directory? then above
      else None
  }

  function Extracted(disk: Entries, root: Root, h: Header): Result<Entries, Failure> {
    if !Inside(root, TargetText(root, h.name)) then Err(Escapes(h.name))
    else
      var p := Target(root, h.name);
      var dirs := Made(disk, if h.isDir || p == [] then p else p[..|p| - 1]);
      if dirs.None? then Err(NotADirectory)
      else if h.isDir then Ok(dirs.value)
      else if p in dirs.value && dirs.value[p].Directory? then Err(IsADirectory)
      else Ok(dirs.value[p := File(h.content)])
  }

  function ExtractedAll(disk: Entries, root: Root, headers: seq<Header>): Result<Entries, Failure>
    decreases |headers|
  {
    if headers == [] then Ok(disk)
    else
      var first := Extracted(disk, root, headers[0]);
      if first.Ok? then ExtractedAll(first.value, root, headers[1..]) else first
  }

  class FileSystem {
    var disk: Entries

    constructor ()
      ensures disk == map[]
    {
      disk := map[];
    }

    method MakeAll(p: Path) returns (ok: bool)
      modifies this
      ensures ok == Made(old(disk), p).Some?
      ensures ok ==> disk == Made(old(disk), p).value
      ensures forall q :: q in old(disk) ==> q in disk && disk[q] == old(disk)[q]
      ensures forall q :: q in disk ==> q in old(disk) || q <= p
      decreases |p|
    {
      if p == [] {
        return true;
      }
      ok := MakeAll(p[..|p| - 1]);
      if ok {
        if p !in disk {
          disk := disk[p := Directory];
        } else {
          ok := disk[p].Directory?;
        }
      }
    }

    /** One entry, unless its target is outside the destination. */
    method ExtractOne(root: Root, h: Header) returns (failure: Option<Failure>)
      modifies this
      ensures failure.None? <==> Extracted(old(disk), root, h).Ok?
      ensures failure.None? ==> disk == Extracted(old(disk), root, h).value
      ensures failure.Some? ==> Extracted(old(disk), root, h) == Err(failure.value)
      ensures root.Valid() ==> Confined(old(disk), disk, root)
      ensures root.Valid() ==> (failure == Some(Escapes(h.name)) <==> !(root.path <= Target(root, h.name)))
    {
      hide Inside, TargetText, Target, Confined;
      NothingTouched(disk, root);
      if root.Valid() {
        InsideExactly(root, h.name);
      }
      if !Inside(root, TargetText(root, h.name)) {
        return Some(Escapes(h.name));
      }
      var p := Target(root, h.name);
      var made := MakeAll(if h.isDir || p == [] then p else p[..|p| - 1]);
      if root.Valid() {
        StaysConfined(old(disk), old(disk), disk, root, p);
      }
      if !made {
        return Some(NotADirectory);
      }
      if !h.isDir {
        if p in disk && disk[p].Directory? {
          return Some(IsADirectory);
        }
        ghost var before := disk;
        disk := disk[p := File(h.content)];
        if root.Valid() {
          StaysConfined(old(disk), before, disk, root, p);
        }
      }
      return None;
    }

    /** untar: the entries in turn, stopping at the first that cannot be extracted. Wherever it stops,
        nothing beside the destination was touched; it completes only if every entry leads to the
        destination or below it, and what it calls an escape is an entry that does not. */
    method Untar(root: Root, headers: seq<Header>) returns (failure: Option<Failure>)
      modifies this
      ensures failure.None? <==> ExtractedAll(old(disk), root, headers).Ok?
      ensures failure.None? ==> disk == ExtractedAll(old(disk), root, headers).value
      ensures failure.Some? ==> ExtractedAll(old(disk), root, headers) == Err(failure.value)
      ensures root.Valid() ==>
                forall q :: !(root.path <= q) && (q in old(disk) || !(q <= root.path)) ==>
                  At(disk, q) == At(old(disk), q)
      ensures root.Valid() && failure.None? ==> forall h :: h in headers ==> root.path <= Target(root, h.name)
      ensures root.Valid() && failure.Some? && failure.value.Escapes? ==>
                exists h :: h in headers && failure.value.name == h.name && !(root.path <= Target(root, h.name))
    {
      hide Extracted, Target;
      NothingTouched(disk, root);
      for i := 0 to |headers|
        invariant ExtractedAll(disk, root, headers[i..]) == ExtractedAll(old(disk), root, headers)
        invariant root.Valid() ==> Confined(old(disk), disk, root)
        invariant root.Valid() ==> forall h :: h in headers[..i] ==> root.path <= Target(root, h.name)
      {
        assert headers[i..][0] == headers[i] && headers[i..][1..] == headers[i + 1..];
        assert headers[..i + 1] == headers[..i] + [headers[i]];
        ghost var before := disk;
        failure := ExtractOne(root, headers[i]);
        if root.Valid() {
          ConfinedTwice(old(disk), before, disk, root);
          assert failure.Some? && failure.value.Escapes? ==> failure.value.name == headers[i].name by {
            hide *;
            EscapeNames(before, root, headers[i]);
          }
        }
        if failure.Some? {
          return;
        }
      }
      assert headers[..|headers|] == headers;
      return None;
    }
  }

  lemma EscapeNames(disk: Entries, root: Root, h: Header)
    ensures Extracted(disk, root, h).Err? && Extracted(disk, root, h).error.Escapes? ==>
              Extracted(disk, root, h).error.name == h.name
  {
    hide Made, Target, TargetText, Inside;
  }

  lemma NothingTouched(disk: Entries, root: Root)
    ensures Confined(disk, disk, root)
  {
  }

  lemma ConfinedTwice(start: Entries, before: Entries, after: Entries, root: Root)
    requires Confined(start, before, root) && Confined(before, after, root)
    ensures Confined(start, after, root)
  {
  }

  /** Beside the destination nothing differs, and above it at most directories were added. */
  ghost predicate Confined(before: Entries, after: Entries, root: Root) {
    forall q :: !(root.path <= q) && (q in before || !(q <= root.path)) ==> At(after, q) == At(before, q)
  }

  lemma StaysConfined(start: Entries, before: Entries, after: Entries, root: Root, p: Path)
    requires Confined(start, before, root) && root.path <= p
    requires forall q :: q in before && q != p ==> q in after && after[q] == before[q]
    requires forall q :: q in after ==> q in before || q <= p
    ensures Confined(start, after, root)
  {
    forall q | !(root.path <= q) && (q in before || !(q <= root.path)) ensures At(after, q) == At(before, q) {
      assert q <= p ==> q <= root.path || root.path <= q;
    }
  }

  // Round trip.

  /** The directory at `p` and everything on the way to it are there. */
  predicate Rooted(disk: Entries, p: Path)
    decreases |p|
  {
    p == [] || (p in disk && disk[p].Directory? && Rooted(disk, p[..|p| - 1]))
  }

  lemma {:induction false} RootedIsMade(disk: Entries, p: Path)
    requires Rooted(disk, p)
    ensures Made(disk, p) == Some(disk)
    decreases |p|
  {
    if p != [] {
      RootedIsMade(disk, p[..|p| - 1]);
    }
  }

  lemma {:induction false} StaysRooted(disk: Entries, more: Entries, p: Path)
    requires Rooted(disk, p) && forall q :: q in disk && q <= p ==> q in more && more[q] == disk[q]
    ensures Rooted(more, p)
    decreases |p|
  {
    if p != [] {
      StaysRooted(disk, more, p[..|p| - 1]);
    }
  }

  /** Nothing is in the way of an entry: what is there already is of its kind. */
  predicate FitsAt(disk: Entries, q: Path, t: Tree) {
    q in disk ==> (disk[q].File? <==> t.Leaf?)
  }

  /** The same for everything a directory holds. */
  predicate Compatible(disk: Entries, base: Path, children: seq<Child>)
    decreases children
  {
    children == [] || (
      && FitsAt(disk, base + [children[0].name], children[0].tree)
      && (children[0].tree.Node? ==> Compatible(disk, base + [children[0].name], children[0].tree.children))
      && Compatible(disk, base, children[1..]))
  }

  lemma {:induction false} CompatibleAlike(disk: Entries, other: Entries, base: Path, children: seq<Child>)
    requires forall c, q :: c in children && base + [c.name] <= q ==> At(disk, q) == At(other, q)
    ensures Compatible(disk, base, children) <==> Compatible(other, base, children)
    decreases children
  {
    if children != [] {
      var c, full := children[0], base + [children[0].name];
      assert c in children && full <= full;
      assert At(disk, full) == At(other, full);
      if c.tree.Node? {
        forall d, q | d in c.tree.children && full + [d.name] <= q ensures At(disk, q) == At(other, q) {
          assert full <= q;
        }
        CompatibleAlike(disk, other, full, c.tree.children);
      }
      forall d, q | d in children[1..] && base + [d.name] <= q ensures At(disk, q) == At(other, q) {
        assert d in children;
      }
      CompatibleAlike(disk, other, base, children[1..]);
    }
  }

  /** One entry below a directory that is there. */
  lemma EntryExtracts(disk: Entries, root: Root, p: Path, t: Tree)
    requires root.Valid() && p != [] && AreNames(p)
    requires Rooted(disk, (root.path + p)[..|root.path + p| - 1])
    ensures var r := Extracted(disk, root, HeaderOf(p, t));
            if FitsAt(disk, root.path + p, t) then r == Ok(disk[root.path + p := EntryOf(t)]) else r.Err?
  {
    hide Target, TargetText, Inside;
    var q, name := root.path + p, HeaderOf(p, t).name;
    NamesLeadBelow(root, p);
    InsideExactly(root, name);
    RootedIsMade(disk, q[..|q| - 1]);
    assert Target(root, name) == q && root.path <= q;
    assert q in disk && disk[q] == EntryOf(t) ==> disk[q := EntryOf(t)] == disk;
  }

  function At(disk: Entries, p: Path): Option<Entry> {
    if p in disk then Some(disk[p]) else None
  }

  /** What extracting a directory's entries leaves at a path: the tree's entry below `base`, and
      elsewhere what was there. */
  ghost predicate Placed(before: Entries, after: Entries, base: Path, children: seq<Child>) {
    forall q :: At(after, q) ==
      if base <= q && Lookup(children, q[|base|..]).Some? then Lookup(children, q[|base|..]) else At(before, q)
  }

  lemma {:induction false} ExtractedConcat(disk: Entries, root: Root, a: seq<Header>, b: seq<Header>)
    ensures var first := ExtractedAll(disk, root, a);
            ExtractedAll(disk, root, a + b) == if first.Ok? then ExtractedAll(first.value, root, b) else first
    decreases |a|
  {
    hide Extracted;
    if a == [] {
      assert a + b == b;
    } else {
      assert (a + b)[1..] == a[1..] + b && (a + b)[0] == a[0];
      if Extracted(disk, root, a[0]).Ok? {
        ExtractedConcat(Extracted(disk, root, a[0]).value, root, a[1..], b);
      }
    }
  }

  /** The same for one child and what is below it. */
  ghost predicate PlacedOne(before: Entries, after: Entries, full: Path, t: Tree) {
    forall q :: At(after, q) ==
      if q == full then Some(EntryOf(t))
      else if full <= q && t.Node? && Lookup(t.children, q[|full|..]).Some? then Lookup(t.children, q[|full|..])
      else At(before, q)
  }

  lemma {:induction false} LookupAbsent(children: seq<Child>, p: Path)
    requires p != [] && forall c :: c in children ==> c.name != p[0]
    ensures Lookup(children, p).None?
    decreases children
  {
    if children != [] {
      LookupAbsent(children[1..], p);
    }
  }

  lemma PlacedCons(before: Entries, mid: Entries, after: Entries, base: Path, children: seq<Child>)
    requires children != [] && WellFormed(children)
    requires PlacedOne(before, mid, base + [children[0].name], children[0].tree)
    requires Placed(mid, after, base, children[1..])
    ensures Placed(before, after, base, children)
  {
    var name, t := children[0].name, children[0].tree;
    var full := base + [name];
    forall q ensures At(after, q) ==
      if base <= q && Lookup(children, q[|base|..]).Some? then Lookup(children, q[|base|..]) else At(before, q)
    {
      if base <= q && q != base {
        var r := q[|base|..];
        assert full <= q <==> r[0] == name;
        if r[0] == name {
          LookupAbsent(children[1..], r);
          assert r[1..] == q[|full|..];
          assert q == full <==> |r| == 1;
        }
      } else if base <= q {
        assert q[|base|..] == [];
      }
      hide WellFormed;
    }
  }

  lemma PlacedBelow(before: Entries, mid: Entries, after: Entries, full: Path, t: Tree)
    requires mid == before[full := EntryOf(t)]
    requires if t.Node? then Placed(mid, after, full, t.children) else after == mid
    ensures PlacedOne(before, after, full, t)
  {
    if t.Node? {
      forall q ensures At(after, q) ==
        if q == full then Some(EntryOf(t))
        else if full <= q && Lookup(t.children, q[|full|..]).Some? then Lookup(t.children, q[|full|..])
        else At(before, q)
      {
        if q == full {
          assert q[|full|..] == [];
        }
      }
    }
  }

  lemma NewDirectoryIsRooted(disk: Entries, full: Path, t: Tree)
    requires full != [] && t.Node? && Rooted(disk, full[..|full| - 1])
    ensures Rooted(disk[full := EntryOf(t)], full)
  {
    StaysRooted(disk, disk[full := EntryOf(t)], full[..|full| - 1]);
  }

  lemma ChildKeepsTheRest(before: Entries, after: Entries, base: Path, children: seq<Child>)
    requires children != [] && WellFormed(children)
    requires PlacedOne(before, after, base + [children[0].name], children[0].tree) && Rooted(before, base)
    ensures Rooted(after, base)
    ensures Compatible(before, base, children[1..]) <==> Compatible(after, base, children[1..])
  {
    var name, t := children[0].name, children[0].tree;
    var full := base + [name];
    forall q | !(full <= q) ensures At(after, q) == At(before, q) {
    }
    forall q | q in before && q <= base ensures q in after && after[q] == before[q] {
      assert !(full <= q);
      assert At(after, q) == At(before, q);
    }
    StaysRooted(before, after, base);
    forall c, q | c in children[1..] && base + [c.name] <= q ensures At(before, q) == At(after, q) {
      SiblingsPart(base, name, c.name, q);
      assert !(full <= q);
    }
    CompatibleAlike(before, after, base, children[1..]);
  }

  lemma SiblingsPart(base: Path, name: string, n: string, q: Path)
    requires n != name
    ensures !(base + [n] <= q && base + [name] <= q)
  {
    if base + [n] <= q {
      assert q[|base|] == n;
    }
  }

  /** Extracting a directory's entries rebuilds it over whatever is there and touches nothing else,
      exactly when nothing there is of the wrong kind. */
  lemma {:induction false} WalkExtracts(disk: Entries, root: Root, at: Path, children: seq<Child>)
    returns (after: Entries)
    requires root.Valid() && AreNames(at) && WellFormed(children) && Rooted(disk, root.path + at)
    ensures if Compatible(disk, root.path + at, children)
            then ExtractedAll(disk, root, Walk(at, children)) == Ok(after)
                 && Placed(disk, after, root.path + at, children)
            else ExtractedAll(disk, root, Walk(at, children)).Err?
    decreases children
  {
    if children == [] {
      return disk;
    }
    hide Extracted, Compatible, Rooted, Placed, PlacedOne, HeaderOf, FitsAt;
    var base, name, t := root.path + at, children[0].name, children[0].tree;
    var p, rest := at + [name], Walk(at, children[1..]);
    var one := [HeaderOf(p, t)] + if t.Node? then Walk(p, t.children) else [];
    assert Walk(at, children) == one + rest;
    CompatibleUnfolds(disk, base, children);
    ExtractedConcat(disk, root, one, rest);
    var mid := ChildExtracts(disk, root, at, children);
    if ExtractedAll(disk, root, one).Err? {
      return disk;
    }
    ChildKeepsTheRest(disk, mid, base, children);
    after := WalkExtracts(mid, root, at, children[1..]);
    if Compatible(disk, base, children) {
      PlacedCons(disk, mid, after, base, children);
    }
  }

  ghost predicate ChildFits(disk: Entries, full: Path, t: Tree) {
    FitsAt(disk, full, t) && (t.Node? ==> Compatible(disk, full, t.children))
  }

  lemma CompatibleUnfolds(disk: Entries, base: Path, children: seq<Child>)
    requires children != []
    ensures Compatible(disk, base, children) <==>
            ChildFits(disk, base + [children[0].name], children[0].tree) && Compatible(disk, base, children[1..])
  {
    hide FitsAt;
  }

  lemma {:induction false} ChildExtracts(disk: Entries, root: Root, at: Path, children: seq<Child>)
    returns (after: Entries)
    requires root.Valid() && AreNames(at) && children != [] && WellFormed(children)
    requires Rooted(disk, root.path + at)
    ensures var p, t, full := at + [children[0].name], children[0].tree, root.path + at + [children[0].name];
            var r := ExtractedAll(disk, root, [HeaderOf(p, t)] + if t.Node? then Walk(p, t.children) else []);
            if ChildFits(disk, full, t) then r == Ok(after) && PlacedOne(disk, after, full, t) else r.Err?
    decreases children, 0
  {
    hide Extracted, Placed, PlacedOne, HeaderOf, Compatible, FitsAt;
    var base, name, t := root.path + at, children[0].name, children[0].tree;
    var p, full := at + [name], base + [name];
    assert root.path + p == full && full[..|full| - 1] == base;
    EntryExtracts(disk, root, p, t);
    var mid := disk[full := EntryOf(t)];
    var header := [HeaderOf(p, t)];
    assert header[1..] == [];
    assert FitsAt(disk, full, t) ==> ExtractedAll(disk, root, header) == Ok(mid);
    if !FitsAt(disk, full, t) {
      assert ExtractedAll(disk, root, header).Err?;
      ExtractedConcat(disk, root, header, if t.Node? then Walk(p, t.children) else []);
      return disk;
    }
    if t.Node? {
      NewDirectoryIsRooted(disk, full, t);
      NewDirectoryIsCompatible(disk, full, t);
      after := WalkExtracts(mid, root, p, t.children);
      ExtractedConcat(disk, root, header, Walk(p, t.children));
      if !Compatible(disk, full, t.children) {
        return;
      }
    } else {
      after := mid;
      assert header + [] == header;
    }
    PlacedBelow(disk, mid, after, full, t);
  }

  lemma NewDirectoryIsCompatible(disk: Entries, full: Path, t: Tree)
    requires t.Node?
    ensures Compatible(disk[full := EntryOf(t)], full, t.children) <==> Compatible(disk, full, t.children)
  {
    forall c, q | c in t.children && full + [c.name] <= q ensures At(disk, q) == At(disk[full := EntryOf(t)], q) {
      assert q != full;
    }
    CompatibleAlike(disk, disk[full := EntryOf(t)], full, t.children);
  }

  /** The destination can be made, and nothing below it is of the wrong kind for the tree. */
  ghost predicate Extractable(disk: Entries, root: Root, children: seq<Child>) {
    children == [] || (Made(disk, root.path).Some? && Compatible(disk, root.path, children))
  }

  /** The tree's own entries below the root, and elsewhere what was there. */
  ghost predicate Rebuilt(disk: Entries, after: Entries, root: Root, children: seq<Child>) {
    && (forall p :: p != [] ==>
          At(after, root.path + p) ==
          if Lookup(children, p).Some? then Lookup(children, p) else At(disk, root.path + p))
    && (forall q :: !(root.path <= q) && !(q <= root.path) ==> At(after, q) == At(disk, q))
  }

  /** The archive of a tree extracts over any destination exactly when no leftover is in its way, and
      then to the tree; the escape test never fires. */
  lemma {:induction false} TreeIsRebuilt(disk: Entries, root: Root, children: seq<Child>) returns (after: Entries)
    requires root.Valid() && WellFormed(children)
    ensures if Extractable(disk, root, children)
            then ExtractedAll(disk, root, Walk([], children)) == Ok(after) && Rebuilt(disk, after, root, children)
            else ExtractedAll(disk, root, Walk([], children)).Err?
  {
    if children == [] {
      return disk;
    }
    FirstEntryMakesTheRoot(disk, root, children);
    if Made(disk, root.path).None? {
      return disk;
    }
    var ready := Made(disk, root.path).value;
    MadeIsRooted(disk, root.path);
    assert root.path + [] == root.path;
    forall c, q | c in children && root.path + [c.name] <= q ensures At(disk, q) == At(ready, q) {
      assert !(q <= root.path);
    }
    CompatibleAlike(disk, ready, root.path, children);
    after := WalkExtracts(ready, root, [], children);
    if Compatible(disk, root.path, children) {
      PlacedIsRebuilt(disk, ready, after, root, children);
    }
  }

  lemma PlacedIsRebuilt(disk: Entries, ready: Entries, after: Entries, root: Root, children: seq<Child>)
    requires forall q :: q in ready ==> q in disk || q <= root.path
    requires forall q :: q in disk ==> q in ready && ready[q] == disk[q]
    requires Placed(ready, after, root.path, children)
    ensures Rebuilt(disk, after, root, children)
  {
    forall p | p != []
      ensures At(after, root.path + p) ==
              if Lookup(children, p).Some? then Lookup(children, p) else At(disk, root.path + p)
    {
      assert (root.path + p)[|root.path|..] == p;
      assert !(root.path + p <= root.path);
      assert At(ready, root.path + p) == At(disk, root.path + p);
    }
  }

  lemma {:induction false} MadeIsRooted(disk: Entries, p: Path)
    requires Made(disk, p).Some?
    ensures Rooted(Made(disk, p).value, p)
    ensures forall q :: q in Made(disk, p).value ==> q in disk || q <= p
    ensures forall q :: q in disk ==> q in Made(disk, p).value && Made(disk, p).value[q] == disk[q]
    decreases |p|
  {
    if p != [] {
      var above := p[..|p| - 1];
      MadeIsRooted(disk, above);
      StaysRooted(Made(disk, above).value, Made(disk, p).value, above);
    }
  }

  lemma EntryMakesTheRoot(disk: Entries, root: Root, name: string, t: Tree)
    requires root.Valid() && IsName(name)
    ensures var first, made := Extracted(disk, root, HeaderOf([name], t)), Made(disk, root.path);
            if made.Some? then first == Extracted(made.value, root, HeaderOf([name], t)) else first.Err?
  {
    var header := HeaderOf([name], t);
    var q := root.path + [name];
    NamesLeadBelow(root, [name]);
    InsideExactly(root, header.name);
    assert q[..|q| - 1] == root.path;
    MadeUnfolds(disk, q);
    if Made(disk, root.path).Some? {
      MadeIsRooted(disk, root.path);
      RootedIsMade(Made(disk, root.path).value, root.path);
      MadeUnfolds(Made(disk, root.path).value, q);
    }
    hide Target, TargetText, Inside, Made, Join, Rooted;
    assert Target(root, header.name) == q;
  }

  lemma MadeUnfolds(disk: Entries, p: Path)
    requires p != []
    ensures Made(disk, p) ==
            var above := Made(disk, p[..|p| - 1]);
            if above.None? then None
            else if p !in above.value then Some(above.value[p := Directory])
            else if above.value[p].Directory? then above else None
  {
  }

  lemma FirstEntryMakesTheRoot(disk: Entries, root: Root, children: seq<Child>)
    requires root.Valid() && WellFormed(children) && children != []
    ensures var all, made := ExtractedAll(disk, root, Walk([], children)), Made(disk, root.path);
            if made.Some? then all == ExtractedAll(made.value, root, Walk([], children)) else all.Err?
  {
    hide Extracted, Made, HeaderOf;
    var name := children[0].name;
    EntryMakesTheRoot(disk, root, name, children[0].tree);
    assert [] + [name] == [name];
    assert Walk([], children)[0] == HeaderOf([name], children[0].tree);
  }
}
