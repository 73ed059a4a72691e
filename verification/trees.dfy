/** The directory tree that a capture's writes leave (internal/core/backup/checksum.go). */
module SnapshotTrees {
  import opened Prelude
  import opened Text
  import opened Paths
  import opened SnapshotVerify
  import opened SnapshotArchive

  /** Make the directories on the way and write the file, as writeChecksummed does. */
  function Insert(children: seq<Child>, p: Path, content: string): (more: seq<Child>)
    requires p != []
    ensures more != []
    decreases |p|, |children| + 1
  {
    if children == [] then [Child(p[0], Grown([], p, content))]
    else if children[0].name != p[0] then [children[0]] + Insert(children[1..], p, content)
    else
      var below := if children[0].tree.Node? then children[0].tree.children else [];
      [Child(p[0], Grown(below, p, content))] + children[1..]
  }

  function Grown(below: seq<Child>, p: Path, content: string): Tree
    requires p != []
    decreases |p|, 0
  {
    if |p| == 1 then Leaf(content) else Node(Insert(below, p[1..], content))
  }

  /** No file is on the way to `p`, and no directory at it. */
  ghost predicate Free(children: seq<Child>, p: Path) {
    && Lookup(children, p) != Some(Directory)
    && (forall k :: 0 < k < |p| ==> Lookup(children, p[..k]) in {None, Some(Directory)})
  }

  lemma {:induction false} InsertNames(children: seq<Child>, p: Path, content: string, n: string)
    requires p != [] && n != p[0] && forall c :: c in children ==> c.name != n
    ensures forall c :: c in Insert(children, p, content) ==> c.name != n
    decreases |children|
  {
    if children != [] && children[0].name != p[0] {
      assert children[0] in children;
      InsertNames(children[1..], p, content, n);
    }
  }

  lemma {:induction false} InsertIsWellFormed(children: seq<Child>, p: Path, content: string)
    requires p != [] && AreNames(p) && WellFormed(children)
    ensures WellFormed(Insert(children, p, content))
    decreases |p|, |children| + 1
  {
    assert p[0] in p;
    if children == [] {
      GrownIsWellFormed([], p, content);
      assert Insert(children, p, content)[1..] == [];
    } else if children[0].name != p[0] {
      InsertIsWellFormed(children[1..], p, content);
      InsertNames(children[1..], p, content, children[0].name);
      assert Insert(children, p, content)[1..] == Insert(children[1..], p, content);
    } else {
      var below := if children[0].tree.Node? then children[0].tree.children else [];
      GrownIsWellFormed(below, p, content);
      assert Insert(children, p, content)[1..] == children[1..];
    }
  }

  lemma {:induction false} GrownIsWellFormed(below: seq<Child>, p: Path, content: string)
    requires p != [] && AreNames(p) && WellFormed(below)
    ensures Grown(below, p, content).Node? ==> WellFormed(Grown(below, p, content).children)
    decreases |p|, 0
  {
    if |p| > 1 {
      InsertIsWellFormed(below, p[1..], content);
    }
  }

  /** A write leaves its file, the directories on the way to it, and elsewhere what was there. */
  lemma {:induction false} InsertedLookup(children: seq<Child>, p: Path, content: string, q: Path)
    requires p != [] && q != [] && Free(children, p)
    ensures Lookup(Insert(children, p, content), q) ==
            if q == p then Some(File(content)) else if q <= p then Some(Directory) else Lookup(children, q)
    decreases |p|, |children| + 1
  {
    var more := Insert(children, p, content);
    if children == [] {
      GrownLookup([], p, content, q);
      assert more[1..] == [];
    } else if children[0].name != p[0] {
      assert more[1..] == Insert(children[1..], p, content);
      FreeBeside(children, p);
      InsertedLookup(children[1..], p, content, q);
    } else {
      assert more[1..] == children[1..];
      var below := if children[0].tree.Node? then children[0].tree.children else [];
      FreeBelow(children, p);
      GrownLookup(below, p, content, q);
    }
  }

  lemma FreeBeside(children: seq<Child>, p: Path)
    requires p != [] && children != [] && children[0].name != p[0] && Free(children, p)
    ensures Free(children[1..], p)
  {
    forall k | 0 < k < |p| ensures Lookup(children[1..], p[..k]) in {None, Some(Directory)} {
      assert Lookup(children, p[..k]) == Lookup(children[1..], p[..k]);
    }
  }

  lemma FreeBelow(children: seq<Child>, p: Path)
    requires p != [] && children != [] && children[0].name == p[0] && Free(children, p)
    ensures |p| > 1 ==> children[0].tree.Node? && Free(children[0].tree.children, p[1..])
    ensures |p| == 1 ==> children[0].tree.Leaf?
  {
    if |p| > 1 {
      assert Lookup(children, p[..1]) in {None, Some(Directory)};
      forall k | 0 < k < |p[1..]| ensures Lookup(children[0].tree.children, p[1..][..k]) in {None, Some(Directory)} {
        assert p[..k + 1][1..] == p[1..][..k];
        assert Lookup(children, p[..k + 1]) in {None, Some(Directory)};
      }
    }
  }

  /** The same below the first name of a path. */
  lemma {:induction false} GrownLookup(below: seq<Child>, p: Path, content: string, q: Path)
    requires p != [] && q != [] && (|p| > 1 ==> Free(below, p[1..]))
    ensures var t := Grown(below, p, content);
            var found := if |q| == 1 then Some(EntryOf(t)) else if t.Node? then Lookup(t.children, q[1..]) else None;
            q[0] == p[0] ==>
              found == if q == p then Some(File(content)) else if q <= p then Some(Directory)
                       else if |p| == 1 || |q| == 1 then None else Lookup(below, q[1..])
    decreases |p|, 0
  {
    if q[0] == p[0] {
      assert q == [q[0]] + q[1..] && p == [p[0]] + p[1..];
      if |p| > 1 && |q| > 1 {
        InsertedLookup(below, p[1..], content, q[1..]);
        assert q <= p <==> q[1..] <= p[1..];
      }
    }
  }

  // All the writes of a capture.

  function PathOf(text: string): Path {
    Split(text, '/')
  }

  lemma {:induction false} TextOfPath(s: string)
    ensures Join(PathOf(s), "/") == s
  {
    if s != "" {
      TextOfPath(s[1..]);
      var rest := PathOf(s[1..]);
      if s[0] == '/' {
        assert PathOf(s) == [""] + rest && PathOf(s)[1..] == rest;
        assert "" + "/" + s[1..] == s;
      } else {
        assert PathOf(s)[1..] == rest[1..] && PathOf(s)[0] == [s[0]] + rest[0];
        if |rest| > 1 {
          assert Join(PathOf(s), "/") == [s[0]] + rest[0] + "/" + Join(rest[1..], "/");
        }
      }
    }
  }

  lemma SamePathSameText(s: string, t: string)
    requires PathOf(s) == PathOf(t)
    ensures s == t
  {
    TextOfPath(s);
    TextOfPath(t);
  }

  datatype Write = Write(path: string, content: string)

  /** The tree that writes leave, from whatever was there. */
  function TreeOf(base: seq<Child>, writes: seq<Write>): seq<Child>
    decreases |writes|
  {
    if writes == [] then base
    else Insert(TreeOf(base, writes[..|writes| - 1]), PathOf(Last(writes).path), Last(writes).content)
  }

  /** Every path is of names, none is a directory of another, and each is free in what was there. */
  ghost predicate Placeable(base: seq<Child>, writes: seq<Write>) {
    && (forall w :: w in writes ==> AreNames(PathOf(w.path)) && Free(base, PathOf(w.path)))
    && (forall v, w :: v in writes && w in writes ==> !(PathOf(v.path) < PathOf(w.path)))
  }

  /** What was last written to a path. */
  function LastAt(writes: seq<Write>, q: Path): Option<string>
    decreases |writes|
  {
    if writes == [] then None
    else if PathOf(Last(writes).path) == q then Some(Last(writes).content)
    else LastAt(writes[..|writes| - 1], q)
  }

  predicate OnTheWay(writes: seq<Write>, q: Path) {
    exists w :: w in writes && q < PathOf(w.path)
  }

  /** The files written, the directories on the way to them, and elsewhere what was there. */
  function Laid(base: seq<Child>, writes: seq<Write>, q: Path): Option<Entry> {
    if LastAt(writes, q).Some? then Some(File(LastAt(writes, q).value))
    else if OnTheWay(writes, q) then Some(Directory)
    else Lookup(base, q)
  }

  ghost predicate Shows(children: seq<Child>, base: seq<Child>, writes: seq<Write>) {
    forall q :: q != [] ==> Lookup(children, q) == Laid(base, writes, q)
  }

  lemma {:induction false} WrittenSomewhere(writes: seq<Write>, q: Path) returns (w: Write)
    requires LastAt(writes, q).Some?
    ensures w in writes && PathOf(w.path) == q
    decreases |writes|
  {
    hide PathOf;
    w := Last(writes);
    if PathOf(w.path) != q {
      w := WrittenSomewhere(writes[..|writes| - 1], q);
    }
  }

  /** The tree of a capture, exactly. */
  lemma {:induction false} CaptureTree(base: seq<Child>, writes: seq<Write>)
    requires WellFormed(base) && Placeable(base, writes)
    ensures WellFormed(TreeOf(base, writes)) && Shows(TreeOf(base, writes), base, writes)
    decreases |writes|
  {
    if writes == [] {
      assert forall q :: Laid(base, [], q) == Lookup(base, q);
    } else {
      var rest, last := writes[..|writes| - 1], Last(writes);
      assert writes == rest + [last];
      FewerArePlaceable(base, rest, last);
      CaptureTree(base, rest);
      hide Placeable, Shows, Insert, PathOf, WellFormed;
      PlacedIsNames(base, writes, last);
      LastIsFree(TreeOf(base, rest), base, rest, last);
      InsertIsWellFormed(TreeOf(base, rest), PathOf(last.path), last.content);
      InsertShows(TreeOf(base, rest), base, rest, last);
    }
  }

  lemma FewerArePlaceable(base: seq<Child>, rest: seq<Write>, last: Write)
    requires Placeable(base, rest + [last])
    ensures Placeable(base, rest)
  {
    hide PathOf, AreNames, Free;
    assert forall w :: w in rest ==> w in rest + [last];
  }

  lemma PlacedIsNames(base: seq<Child>, writes: seq<Write>, w: Write)
    requires Placeable(base, writes) && w in writes
    ensures AreNames(PathOf(w.path)) && PathOf(w.path) != [] && Free(base, PathOf(w.path))
  {
    hide AreNames, Free;
  }

  lemma NoneBelowAnother(base: seq<Child>, rest: seq<Write>, last: Write, w: Write)
    requires Placeable(base, rest + [last]) && w in rest
    ensures !(PathOf(last.path) < PathOf(w.path)) && !(PathOf(w.path) < PathOf(last.path))
  {
    hide PathOf, AreNames, Free;
    assert last in rest + [last] && w in rest + [last];
  }

  lemma LastIsNoDirectory(children: seq<Child>, base: seq<Child>, rest: seq<Write>, last: Write)
    requires Placeable(base, rest + [last]) && Shows(children, base, rest) && PathOf(last.path) != []
    ensures Lookup(children, PathOf(last.path)) != Some(Directory)
  {
    var p := PathOf(last.path);
    PlacedIsNames(base, rest + [last], last) by {
      assert last in rest + [last];
    }
    hide PathOf, Placeable, Lookup, LastAt;
    assert Lookup(children, p) == Laid(base, rest, p);
    if OnTheWay(rest, p) {
      var w :| w in rest && p < PathOf(w.path);
      NoneBelowAnother(base, rest, last, w);
    }
    FreeAt(base, p);
  }

  lemma FreeAt(children: seq<Child>, p: Path)
    requires Free(children, p)
    ensures Lookup(children, p) != Some(Directory)
    ensures forall k :: 0 < k < |p| ==> Lookup(children, p[..k]) in {None, Some(Directory)}
  {
  }

  lemma NoFileOnTheWay(children: seq<Child>, base: seq<Child>, rest: seq<Write>, last: Write, k: nat)
    requires Placeable(base, rest + [last]) && Shows(children, base, rest) && 0 < k < |PathOf(last.path)|
    ensures Lookup(children, PathOf(last.path)[..k]) in {None, Some(Directory)}
  {
    PlacedIsNames(base, rest + [last], last) by {
      assert last in rest + [last];
    }
    hide PathOf, Placeable, Lookup, LastAt, OnTheWay;
    var q := PathOf(last.path)[..k];
    assert Lookup(children, q) == Laid(base, rest, q);
    if LastAt(rest, q).Some? {
      var w := WrittenSomewhere(rest, q);
      NoneBelowAnother(base, rest, last, w);
    }
    FreeAt(base, PathOf(last.path));
  }

  lemma LastIsFree(children: seq<Child>, base: seq<Child>, rest: seq<Write>, last: Write)
    requires Placeable(base, rest + [last]) && Shows(children, base, rest) && PathOf(last.path) != []
    ensures Free(children, PathOf(last.path))
  {
    hide PathOf, Placeable, Shows;
    LastIsNoDirectory(children, base, rest, last);
    forall k | 0 < k < |PathOf(last.path)| ensures Lookup(children, PathOf(last.path)[..k]) in {None, Some(Directory)} {
      NoFileOnTheWay(children, base, rest, last, k);
    }
  }

  lemma LastAtMore(rest: seq<Write>, last: Write, q: Path)
    ensures LastAt(rest + [last], q) == if PathOf(last.path) == q then Some(last.content) else LastAt(rest, q)
    ensures OnTheWay(rest + [last], q) <==> OnTheWay(rest, q) || q < PathOf(last.path)
  {
    var all := rest + [last];
    assert all[..|all| - 1] == rest && Last(all) == last;
    hide PathOf;
    assert forall w :: w in all <==> w in rest || w == last;
  }

  lemma LaidMore(children: seq<Child>, base: seq<Child>, rest: seq<Write>, last: Write, q: Path)
    requires Placeable(base, rest + [last]) && Shows(children, base, rest) && q != []
    requires PathOf(last.path) != [] && Free(children, PathOf(last.path))
    ensures Lookup(Insert(children, PathOf(last.path), last.content), q) == Laid(base, rest + [last], q)
  {
    var p := PathOf(last.path);
    hide PathOf, Placeable, Insert, LastAt, OnTheWay, Free;
    assert Lookup(children, q) == Laid(base, rest, q);
    hide Lookup, Shows;
    InsertedLookup(children, p, last.content, q);
    LastAtMore(rest, last, q);
    if q < p && LastAt(rest, q).Some? {
      var w := WrittenSomewhere(rest, q);
      NoneBelowAnother(base, rest, last, w);
    }
  }

  lemma InsertShows(children: seq<Child>, base: seq<Child>, rest: seq<Write>, last: Write)
    requires Placeable(base, rest + [last]) && Shows(children, base, rest)
    requires PathOf(last.path) != [] && Free(children, PathOf(last.path))
    ensures Shows(Insert(children, PathOf(last.path), last.content), base, rest + [last])
  {
    var more := Insert(children, PathOf(last.path), last.content);
    hide PathOf, Placeable, Insert, Free, Laid, Lookup;
    forall q | q != [] ensures Lookup(more, q) == Laid(base, rest + [last], q) {
      LaidMore(children, base, rest, last, q);
    }
  }

  // The writes of one snapshot.

  function WritesOf(items: seq<Item>): (writes: seq<Write>)
    ensures |writes| == |items| && forall i :: 0 <= i < |items| ==> writes[i] == Write(items[i].path, items[i].content)
  {
    seq(|items|, i requires 0 <= i < |items| => Write(items[i].path, items[i].content))
  }

  /** What was last written to a path is what the captured files hold there. */
  lemma {:induction false} LastIsWritten(items: seq<Item>, path: string)
    ensures LastAt(WritesOf(items), PathOf(path)) ==
            if path in Written(map[], items) then Some(Written(map[], items)[path]) else None
    decreases |items|
  {
    if items != [] {
      var rest, last := items[..|items| - 1], Last(items);
      assert WritesOf(items)[..|items| - 1] == WritesOf(rest);
      LastIsWritten(rest, path);
      hide PathOf;
      if PathOf(last.path) == PathOf(path) {
        SamePathSameText(last.path, path);
      }
    }
  }

  /** manifest.go's ManifestFile. */
  const MANIFEST_FILE := "snapshot-manifest.json"

  /** The components in order, and then the manifest. */
  function SnapshotWrites(items: seq<Item>, manifest: string): seq<Write> {
    WritesOf(items) + [Write(MANIFEST_FILE, manifest)]
  }

  /** The manifest is written last, so nothing captured takes its place. */
  lemma ManifestIsThere(children: seq<Child>, base: seq<Child>, items: seq<Item>, manifest: string)
    requires Placeable(base, SnapshotWrites(items, manifest))
    requires Shows(children, base, SnapshotWrites(items, manifest))
    ensures Lookup(children, PathOf("snapshot-manifest.json")) == Some(File(manifest))
    ensures AreNames(PathOf("snapshot-manifest.json"))
  {
    hide PathOf, Placeable, Lookup, LastAt, WritesOf;
    var last := Write(MANIFEST_FILE, manifest);
    LastAtMore(WritesOf(items), last, PathOf(MANIFEST_FILE));
    assert SnapshotWrites(items, manifest)[|WritesOf(items)|] == last;
    PlacedIsNames(base, SnapshotWrites(items, manifest), last);
  }

  lemma SnapshotHolds(children: seq<Child>, base: seq<Child>, items: seq<Item>, manifest: string, path: string)
    requires Placeable(base, SnapshotWrites(items, manifest))
    requires Shows(children, base, SnapshotWrites(items, manifest))
    requires path in Written(map[], items) && path != MANIFEST_FILE
    ensures Lookup(children, PathOf(path)) == Some(File(Written(map[], items)[path]))
    ensures AreNames(PathOf(path))
  {
    LastIsWritten(items, path);
    hide PathOf, Placeable, Lookup, LastAt, Written, MANIFEST_FILE;
    LastAtMore(WritesOf(items), Write(MANIFEST_FILE, manifest), PathOf(path));
    if PathOf(MANIFEST_FILE) == PathOf(path) {
      SamePathSameText(MANIFEST_FILE, path);
    }
    var w := WrittenSomewhere(SnapshotWrites(items, manifest), PathOf(path));
    PlacedIsNames(base, SnapshotWrites(items, manifest), w);
  }
}
