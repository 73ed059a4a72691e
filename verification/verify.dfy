/**
 Capturing a snapshot directory and verifying it (internal/core/backup/capture.go, verify.go).
 Names are taken to be clean: joining one to a directory does not rewrite it.
 */
module SnapshotVerify {
  import opened Prelude
  import opened Text
  import opened StagedInstall

  datatype Kind = Git | Database | Blobs | Keys

  /** SHA-256, taken to tell contents apart. */
  datatype Digest = Sha256(content: string)

  datatype Component = Component(kind: Kind, name: string, path: string, checksum: Digest)

  /** bundle.DefaultChecksumAlgorithm, the one Verify can act on. */
  const ALGORITHM := "sha256"

  datatype SnapshotManifest = SnapshotManifest(algorithm: string, components: seq<Component>)

  datatype Remote = Remote(name: string, refs: string, objects: string)

  datatype Secret = Secret(name: string, value: string)

  datatype Source = Source(db: string, remotes: seq<Remote>, blobs: Files, keys: seq<Secret>)

  /** One file of a snapshot: what is captured, and where it goes. */
  datatype Item = Item(kind: Kind, name: string, path: string, content: string) {
    function Recorded(): Component {
      Component(kind, name, path, Sha256(content))
    }
  }

  function DatabaseItem(db: string): Item { Item(Database, "db.sqlite", "db.sqlite", db) }

  function RefsItem(r: Remote): Item { Item(Git, r.name, "repos/" + r.name + ".refs.tar", r.refs) }

  function ObjectsItem(r: Remote): Item { Item(Git, r.name, "repos/" + r.name + ".tar", r.objects) }

  function BlobItem(key: string, content: string): Item { Item(Blobs, key, "blobs/" + key, content) }

  function KeyItem(s: Secret): Item { Item(Keys, s.name, "keys/" + s.name, s.value) }

  function RefsItems(remotes: seq<Remote>): (items: seq<Item>)
    ensures |items| == |remotes| && forall i :: 0 <= i < |items| ==> items[i] == RefsItem(remotes[i])
  {
    seq(|remotes|, i requires 0 <= i < |remotes| => RefsItem(remotes[i]))
  }

  function ObjectsItems(remotes: seq<Remote>): (items: seq<Item>)
    ensures |items| == |remotes| && forall i :: 0 <= i < |items| ==> items[i] == ObjectsItem(remotes[i])
  {
    seq(|remotes|, i requires 0 <= i < |remotes| => ObjectsItem(remotes[i]))
  }

  function BlobItems(order: seq<string>, blobs: Files): (items: seq<Item>)
    requires forall k :: k in order ==> k in blobs
    ensures |items| == |order| && forall i :: 0 <= i < |items| ==> items[i] == BlobItem(order[i], blobs[order[i]])
  {
    seq(|order|, i requires 0 <= i < |order| => BlobItem(order[i], blobs[order[i]]))
  }

  function KeyItems(keys: seq<Secret>): (items: seq<Item>)
    ensures |items| == |keys| && forall i :: 0 <= i < |items| ==> items[i] == KeyItem(keys[i])
  {
    seq(|keys|, i requires 0 <= i < |keys| => KeyItem(keys[i]))
  }

  ghost predicate Orders(order: seq<string>, blobs: Files) {
    Ascending(order) && forall k :: k in order <==> k in blobs
  }

  /** Everything a snapshot of `s` holds, in the manifest's order. */
  function Items(s: Source, order: seq<string>): seq<Item>
    requires Orders(order, s.blobs)
  {
    [DatabaseItem(s.db)] + RefsItems(s.remotes) + ObjectsItems(s.remotes) + BlobItems(order, s.blobs) + KeyItems(s.keys)
  }

  function Written(files: Files, items: seq<Item>): Files {
    if items == [] then files
    else Written(files, items[..|items| - 1])[Last(items).path := Last(items).content]
  }

  function Components(items: seq<Item>): (components: seq<Component>)
    ensures |components| == |items| && forall i :: 0 <= i < |items| ==> components[i] == items[i].Recorded()
  {
    seq(|items|, i requires 0 <= i < |items| => items[i].Recorded())
  }

  function ManifestOf(s: Source, order: seq<string>): SnapshotManifest
    requires Orders(order, s.blobs)
  {
    SnapshotManifest(ALGORITHM, Components(Items(s, order)))
  }

  lemma {:induction false} WrittenConcat(files: Files, a: seq<Item>, b: seq<Item>)
    ensures Written(files, a + b) == Written(Written(files, a), b)
    decreases |b|
  {
    if b == [] {
      assert a + b == a;
    } else {
      assert (a + b)[..|a + b| - 1] == a + b[..|b| - 1];
      WrittenConcat(files, a, b[..|b| - 1]);
    }
  }

  lemma OneMoreWritten(files: Files, items: seq<Item>, i: nat)
    requires i < |items|
    ensures Written(files, items[..i + 1]) == Written(files, items[..i])[items[i].path := items[i].content]
    ensures Components(items[..i + 1]) == Components(items[..i]) + [items[i].Recorded()]
  {
    assert items[..i + 1][..i] == items[..i];
  }

  lemma NothingWritten(files: Files, items: seq<Item>)
    ensures Written(files, items[..0]) == files && Components(items[..0]) == []
    ensures items[..|items|] == items
  {
  }

  // Capture.

  class SnapshotDir {
    var files: Files

    constructor ()
      ensures files == map[]
    {
      files := map[];
    }

    /** The checksum is of what was read, as it was written; a file already there is truncated. */
    method WriteChecksummed(path: string, content: string) returns (checksum: Digest)
      modifies this
      ensures files == old(files)[path := content] && checksum == Sha256(content)
    {
      files := files[path := content];
      return Sha256(content);
    }

    method CaptureDatabase(db: string) returns (component: Component)
      modifies this
      ensures files == Written(old(files), [DatabaseItem(db)]) && component == DatabaseItem(db).Recorded()
    {
      var checksum := WriteChecksummed("db.sqlite", db);
      component := Component(Database, "db.sqlite", "db.sqlite", checksum);
      assert [DatabaseItem(db)][..0] == [];
    }

    method CaptureGitRefs(remotes: seq<Remote>) returns (components: seq<Component>)
      modifies this
      ensures files == Written(old(files), RefsItems(remotes)) && components == Components(RefsItems(remotes))
    {
      components := [];
      ghost var items := RefsItems(remotes);
      hide Written;
      NothingWritten(files, items);
      for i := 0 to |remotes|
        invariant files == Written(old(files), items[..i]) && components == Components(items[..i])
      {
        OneMoreWritten(old(files), items, i);
        var path := "repos/" + remotes[i].name + ".refs.tar";
        var checksum := WriteChecksummed(path, remotes[i].refs);
        components := components + [Component(Git, remotes[i].name, path, checksum)];
      }
    }

    method CaptureGitObjects(remotes: seq<Remote>) returns (components: seq<Component>)
      modifies this
      ensures files == Written(old(files), ObjectsItems(remotes)) && components == Components(ObjectsItems(remotes))
    {
      components := [];
      ghost var items := ObjectsItems(remotes);
      hide Written;
      NothingWritten(files, items);
      for i := 0 to |remotes|
        invariant files == Written(old(files), items[..i]) && components == Components(items[..i])
      {
        OneMoreWritten(old(files), items, i);
        var path := "repos/" + remotes[i].name + ".tar";
        var checksum := WriteChecksummed(path, remotes[i].objects);
        components := components + [Component(Git, remotes[i].name, path, checksum)];
      }
    }

    /** The adapter lists its objects in any order; the manifest has them in key order. */
    method CaptureBlobs(blobs: Files) returns (components: seq<Component>, order: seq<string>)
      modifies this
      ensures Orders(order, blobs)
      ensures files == Written(old(files), BlobItems(order, blobs)) && components == Components(BlobItems(order, blobs))
      ensures forall k :: k in blobs ==> "blobs/" + k in files && files["blobs/" + k] == blobs[k]
    {
      hide Ascending;
      order := SortedNames(blobs);
      components := [];
      ghost var items := BlobItems(order, blobs);
      hide Written;
      NothingWritten(files, items);
      for i := 0 to |order|
        invariant files == Written(old(files), items[..i]) && components == Components(items[..i])
      {
        OneMoreWritten(old(files), items, i);
        assert order[i] in order;
        var checksum := WriteChecksummed("blobs/" + order[i], blobs[order[i]]);
        components := components + [Component(Blobs, order[i], "blobs/" + order[i], checksum)];
      }
      BlobsAreThere(old(files), order, blobs);
    }

    method CaptureKeys(keys: seq<Secret>) returns (components: seq<Component>)
      modifies this
      ensures files == Written(old(files), KeyItems(keys)) && components == Components(KeyItems(keys))
    {
      components := [];
      ghost var items := KeyItems(keys);
      hide Written;
      NothingWritten(files, items);
      for i := 0 to |keys|
        invariant files == Written(old(files), items[..i]) && components == Components(items[..i])
      {
        OneMoreWritten(old(files), items, i);
        var checksum := WriteChecksummed("keys/" + keys[i].name, keys[i].value);
        components := components + [Component(Keys, keys[i].name, "keys/" + keys[i].name, checksum)];
      }
    }

    /** The captures of Run, in its order. */
    method CaptureAll(s: Source) returns (manifest: SnapshotManifest, order: seq<string>)
      modifies this
      ensures Orders(order, s.blobs)
      ensures files == Written(old(files), Items(s, order)) && manifest == ManifestOf(s, order)
      ensures && "db.sqlite" in files && files["db.sqlite"] == s.db
              && (forall k :: k in s.blobs ==> "blobs/" + k in files && files["blobs/" + k] == s.blobs[k])
              && (forall k :: k in s.keys && (forall j :: j in s.keys && j.name == k.name ==> j == k) ==>
                    "keys/" + k.name in files && files["keys/" + k.name] == k.value)
              && (forall r :: r in s.remotes && (forall q :: q in s.remotes && q.name == r.name ==> q == r) ==>
                    && "repos/" + r.name + ".tar" in files && files["repos/" + r.name + ".tar"] == r.objects
                    && ((forall q :: q in s.remotes && q.name == r.name + ".refs" ==> q.objects == r.refs) ==>
                         "repos/" + r.name + ".refs.tar" in files && files["repos/" + r.name + ".refs.tar"] == r.refs))
    {
      hide *;
      var database := CaptureDatabase(s.db);
      var refs := CaptureGitRefs(s.remotes);
      var objects := CaptureGitObjects(s.remotes);
      var blobs;
      blobs, order := CaptureBlobs(s.blobs);
      var keys := CaptureKeys(s.keys);
      manifest := SnapshotManifest(ALGORITHM, [database] + refs + objects + blobs + keys);
      WrittenInTurn(s, order, old(files));
      ComponentsInTurn(s, order);
      CapturedFiles(s, order, old(files));
    }
  }

  lemma WrittenInTurn(s: Source, order: seq<string>, before: Files)
    requires Orders(order, s.blobs)
    ensures Written(before, Items(s, order)) ==
            var database := Written(before, [DatabaseItem(s.db)]);
            var git := Written(Written(database, RefsItems(s.remotes)), ObjectsItems(s.remotes));
            Written(Written(git, BlobItems(order, s.blobs)), KeyItems(s.keys))
  {
    hide Written, Ascending, DatabaseItem, RefsItems, ObjectsItems, BlobItems, KeyItems;
    var written := [DatabaseItem(s.db)];
    WrittenConcat(before, written, RefsItems(s.remotes));
    written := written + RefsItems(s.remotes);
    WrittenConcat(before, written, ObjectsItems(s.remotes));
    written := written + ObjectsItems(s.remotes);
    WrittenConcat(before, written, BlobItems(order, s.blobs));
    written := written + BlobItems(order, s.blobs);
    WrittenConcat(before, written, KeyItems(s.keys));
  }

  lemma ComponentsInTurn(s: Source, order: seq<string>)
    requires Orders(order, s.blobs)
    ensures ManifestOf(s, order).algorithm == ALGORITHM
    ensures ManifestOf(s, order).components ==
            [DatabaseItem(s.db).Recorded()] + Components(RefsItems(s.remotes)) + Components(ObjectsItems(s.remotes))
            + Components(BlobItems(order, s.blobs)) + Components(KeyItems(s.keys))
  {
    hide Orders, DatabaseItem, RefsItem, ObjectsItem, BlobItem, KeyItem;
  }

  // Verification.

  datatype Defect =
    | BadAlgorithm(name: string) | DatabaseCount(count: nat) | MissingKey(name: string)
    | BadChecksum(path: string)
    | Unreadable(subject: string) | Unscanned(subject: string) | Unfinished(subject: string)
    | NoObjects(repo: string) | NoRefs(repo: string) | NoBlob(table: string, id: string)

  predicate Faithful(files: Files, c: Component) {
    c.path in files && Sha256(files[c.path]) == c.checksum
  }

  predicate IsRefs(c: Component) {
    c.kind == Git && HasSuffix(c.path, ".refs.tar")
  }

  predicate IsObjects(c: Component) {
    c.kind == Git && !HasSuffix(c.path, ".refs.tar") && HasSuffix(c.path, ".tar")
  }

  predicate HasRefs(components: seq<Component>, repo: string) {
    exists c :: c in components && IsRefs(c) && c.name == repo
  }

  predicate HasObjects(components: seq<Component>, repo: string) {
    exists c :: c in components && IsObjects(c) && c.name == repo
  }

  predicate HasKey(components: seq<Component>, name: string) {
    exists c :: c in components && c.kind == Keys && c.name == name
  }

  ghost predicate HasBlob(components: seq<Component>, id: string) {
    exists c :: c in components && c.kind == Blobs && Contains(c.name, id)
  }

  function Databases(components: seq<Component>): nat {
    if components == [] then 0
    else Databases(components[..|components| - 1]) + if Last(components).kind == Database then 1 else 0
  }

  /** What one table of the captured database gives: nothing where it cannot be queried; else its rows,
      None for one that cannot be scanned, and whether the iteration came to its end. */
  datatype Rows = NotQueried | Read(rows: seq<Option<string>>, ended: bool) {
    predicate Has(value: string) {
      Read? && Some(value) in rows
    }

    predicate Whole() {
      Read? && ended && None !in rows
    }
  }

  /** What the captured database refers to: repository rows, and LFS and attachment identifiers. */
  datatype References = References(repositories: Rows, lfs: Rows, attachments: Rows)

  const REPOSITORY := "repository"
  const LFS := "lfs_meta_object"
  const ATTACHMENT := "attachment"

  predicate IsTableDefect(table: string, rows: Rows, d: Defect) {
    match d
    case Unreadable(subject) => subject == table && rows.NotQueried?
    case Unscanned(subject) => subject == table && rows.Read? && None in rows.rows
    case Unfinished(subject) => subject == table && rows.Read? && !rows.ended
    case _ => false
  }

  ghost predicate IsBlobDefect(components: seq<Component>, table: string, rows: Rows, d: Defect) {
    IsTableDefect(table, rows, d)
    || (d.NoBlob? && d.table == table && rows.Has(d.id) && d.id != "" && !HasBlob(components, d.id))
  }

  ghost predicate IsRepositoryDefect(components: seq<Component>, rows: Rows, d: Defect) {
    IsTableDefect(REPOSITORY, rows, d)
    || (d.NoObjects? && rows.Has(d.repo) && !HasObjects(components, d.repo))
    || (d.NoRefs? && rows.Has(d.repo) && !HasRefs(components, d.repo))
  }

  ghost predicate IsCompletenessDefect(manifest: SnapshotManifest, keyNames: seq<string>, d: Defect) {
    match d
    case BadAlgorithm(name) => name == manifest.algorithm != ALGORITHM
    case DatabaseCount(count) => count == Databases(manifest.components) != 1
    case MissingKey(name) => name in keyNames && !HasKey(manifest.components, name)
    case _ => false
  }

  ghost predicate IsChecksumDefect(files: Files, components: seq<Component>, d: Defect) {
    d.BadChecksum? && exists c :: c in components && c.path == d.path && !Faithful(files, c)
  }

  /** A database that does not open is one defect, and nothing more is asked of it. */
  ghost predicate IsCrossDefect(components: seq<Component>, db: Option<References>, d: Defect) {
    if db.None? then d == Unreadable("db.sqlite")
    else
      || IsRepositoryDefect(components, db.value.repositories, d)
      || IsBlobDefect(components, LFS, db.value.lfs, d)
      || IsBlobDefect(components, ATTACHMENT, db.value.attachments, d)
  }

  /** What is wrong with a snapshot directory, by its manifest. */
  ghost predicate IsDefect(files: Files, manifest: SnapshotManifest, keyNames: seq<string>,
                           db: Option<References>, d: Defect) {
    || IsCompletenessDefect(manifest, keyNames, d)
    || IsChecksumDefect(files, manifest.components, d)
    || IsCrossDefect(manifest.components, db, d)
  }

  /** The names of the captured keys, in one pass, and how many databases were met. */
  method CountComponents(components: seq<Component>) returns (count: nat, haveKey: set<string>)
    ensures count == Databases(components)
    ensures forall n :: n in haveKey <==> HasKey(components, n)
  {
    count, haveKey := 0, {};
    for i := 0 to |components|
      invariant count == Databases(components[..i])
      invariant forall n :: n in haveKey <==> HasKey(components[..i], n)
    {
      var c := components[i];
      KeyStep(components[..i], c);
      assert components[..i + 1] == components[..i] + [c] && components[..i + 1][..i] == components[..i];
      if c.kind == Database {
        count := count + 1;
      } else if c.kind == Keys {
        haveKey := haveKey + {c.name};
      }
    }
    assert components[..|components|] == components;
  }

  lemma KeyStep(components: seq<Component>, c: Component)
    ensures forall n :: HasKey(components + [c], n) <==> HasKey(components, n) || (c.kind == Keys && c.name == n)
  {
    var more := components + [c];
    assert forall x :: x in more <==> x in components || x == c;
  }

  method VerifyCompleteness(manifest: SnapshotManifest, keyNames: seq<string>) returns (defects: seq<Defect>)
    ensures forall d :: d in defects <==> IsCompletenessDefect(manifest, keyNames, d)
  {
    defects := [];
    if manifest.algorithm != ALGORITHM {
      defects := [BadAlgorithm(manifest.algorithm)];
    }
    var count, haveKey := CountComponents(manifest.components);
    if count != 1 {
      defects := defects + [DatabaseCount(count)];
    }
    hide HasKey, Databases, ALGORITHM;
    ghost var first := defects;
    for i := 0 to |keyNames|
      invariant forall d :: d in defects <==>
                              d in first || (d.MissingKey? && d.name in keyNames[..i] && d.name !in haveKey)
    {
      if keyNames[i] !in haveKey {
        defects := defects + [MissingKey(keyNames[i])];
      }
    }
  }

  method VerifyChecksums(files: Files, components: seq<Component>) returns (defects: seq<Defect>)
    ensures forall d :: d in defects <==> IsChecksumDefect(files, components, d)
  {
    defects := [];
    for i := 0 to |components|
      invariant forall d :: d in defects <==> IsChecksumDefect(files, components[..i], d)
    {
      var c := components[i];
      assert components[..i + 1] == components[..i] + [c];
      ghost var before, known := components[..i], defects;
      if c.path !in files || Sha256(files[c.path]) != c.checksum {
        defects := defects + [BadChecksum(c.path)];
      }
      assert forall x :: x in components[..i + 1] <==> x in before || x == c;
      assert forall d :: d in defects <==> d in known || (d == BadChecksum(c.path) && !Faithful(files, c));
    }
    assert components[..|components|] == components;
  }

  method GitComponents(components: seq<Component>) returns (haveRefs: set<string>, haveObjects: set<string>)
    ensures forall n :: n in haveRefs <==> HasRefs(components, n)
    ensures forall n :: n in haveObjects <==> HasObjects(components, n)
  {
    haveRefs, haveObjects := {}, {};
    for i := 0 to |components|
      invariant forall n :: n in haveRefs <==> HasRefs(components[..i], n)
      invariant forall n :: n in haveObjects <==> HasObjects(components[..i], n)
    {
      var c := components[i];
      GitStep(components[..i], c);
      assert components[..i + 1] == components[..i] + [c];
      if c.kind == Git {
        if HasSuffix(c.path, ".refs.tar") {
          haveRefs := haveRefs + {c.name};
        } else if HasSuffix(c.path, ".tar") {
          haveObjects := haveObjects + {c.name};
        }
      }
    }
    assert components[..|components|] == components;
  }

  lemma GitStep(components: seq<Component>, c: Component)
    ensures forall n :: HasRefs(components + [c], n) <==> HasRefs(components, n) || (IsRefs(c) && c.name == n)
    ensures forall n :: HasObjects(components + [c], n) <==> HasObjects(components, n) || (IsObjects(c) && c.name == n)
  {
    hide IsRefs, IsObjects;
    var more := components + [c];
    assert forall x :: x in more <==> x in components || x == c;
  }

  method VerifyRepositoryReferences(components: seq<Component>, rows: Rows) returns (defects: seq<Defect>)
    ensures forall d :: d in defects <==> IsRepositoryDefect(components, rows, d)
  {
    var haveRefs, haveObjects := GitComponents(components);
    hide HasRefs, HasObjects, REPOSITORY;
    if rows.NotQueried? {
      return [Unreadable(REPOSITORY)];
    }
    defects := [];
    for i := 0 to |rows.rows|
      invariant forall d :: d in defects <==>
                  || (d == Unscanned(REPOSITORY) && None in rows.rows[..i])
                  || (d.NoObjects? && Some(d.repo) in rows.rows[..i] && d.repo !in haveObjects)
                  || (d.NoRefs? && Some(d.repo) in rows.rows[..i] && d.repo !in haveRefs)
    {
      if rows.rows[i].None? {
        defects := defects + [Unscanned(REPOSITORY)];
        continue;
      }
      var full := rows.rows[i].value;
      if full !in haveObjects {
        defects := defects + [NoObjects(full)];
      }
      if full !in haveRefs {
        defects := defects + [NoRefs(full)];
      }
    }
    assert rows.rows[..|rows.rows|] == rows.rows;
    if !rows.ended {
      defects := defects + [Unfinished(REPOSITORY)];
    }
  }

  /** strings.Contains, by trying each position. */
  method Includes(s: string, t: string) returns (found: bool)
    ensures found <==> Contains(s, t)
  {
    for i := 0 to |s| + 1
      invariant forall j :: 0 <= j < i ==> !OccursAt(s, t, j)
    {
      if OccursAt(s, t, i) {
        return true;
      }
    }
    return false;
  }

  method AnyContains(components: seq<Component>, id: string) returns (found: bool)
    ensures found <==> HasBlob(components, id)
  {
    for i := 0 to |components|
      invariant !HasBlob(components[..i], id)
    {
      if components[i].kind == Blobs {
        var included := Includes(components[i].name, id);
        if included {
          return true;
        }
      }
    }
    assert components[..|components|] == components;
    return false;
  }

  method VerifyBlobReferences(components: seq<Component>, table: string, rows: Rows) returns (defects: seq<Defect>)
    ensures forall d :: d in defects <==> IsBlobDefect(components, table, rows, d)
  {
    if rows.NotQueried? {
      return [Unreadable(table)];
    }
    defects := [];
    hide HasBlob;
    for i := 0 to |rows.rows|
      invariant forall d :: d in defects <==>
                  || (d == Unscanned(table) && None in rows.rows[..i])
                  || (d.NoBlob? && d.table == table && Some(d.id) in rows.rows[..i] && d.id != ""
                      && !HasBlob(components, d.id))
    {
      if rows.rows[i].None? {
        defects := defects + [Unscanned(table)];
        continue;
      }
      var id := rows.rows[i].value;
      if id != "" {
        var found := AnyContains(components, id);
        if !found {
          defects := defects + [NoBlob(table, id)];
        }
      }
    }
    assert rows.rows[..|rows.rows|] == rows.rows;
    if !rows.ended {
      defects := defects + [Unfinished(table)];
    }
  }

  method VerifyCrossConsistency(components: seq<Component>, db: Option<References>) returns (defects: seq<Defect>)
    ensures forall d :: d in defects <==> IsCrossDefect(components, db, d)
  {
    if db.None? {
      return [Unreadable("db.sqlite")];
    }
    hide IsRepositoryDefect, IsBlobDefect;
    var repositories := VerifyRepositoryReferences(components, db.value.repositories);
    var lfs := VerifyBlobReferences(components, LFS, db.value.lfs);
    var attachments := VerifyBlobReferences(components, ATTACHMENT, db.value.attachments);
    defects := repositories + lfs + attachments;
  }

  /** Every defect there is, and nothing else. */
  method Verify(files: Files, manifest: SnapshotManifest, keyNames: seq<string>, db: Option<References>)
    returns (defects: seq<Defect>)
    ensures forall d :: d in defects <==> IsDefect(files, manifest, keyNames, db, d)
  {
    hide IsCompletenessDefect, IsChecksumDefect, IsCrossDefect;
    var completeness := VerifyCompleteness(manifest, keyNames);
    var checksums := VerifyChecksums(files, manifest.components);
    var cross := VerifyCrossConsistency(manifest.components, db);
    defects := completeness + checksums + cross;
  }

  /** The database opens and is read whole, and each of its references is met. */
  ghost predicate Consistent(components: seq<Component>, db: Option<References>) {
    && IsWhole(db)
    && (forall r :: db.value.repositories.Has(r) ==> HasRefs(components, r) && HasObjects(components, r))
    && (forall id :: RefersTo(db.value, id) ==> HasBlob(components, id))
  }

  predicate IsWhole(db: Option<References>) {
    db.Some? && db.value.repositories.Whole() && db.value.lfs.Whole() && db.value.attachments.Whole()
  }

  predicate RefersTo(db: References, id: string) {
    id != "" && (db.lfs.Has(id) || db.attachments.Has(id))
  }

  lemma NoTableDefectExactly(table: string, rows: Rows)
    ensures (forall d :: !IsTableDefect(table, rows, d)) <==> rows.Whole()
  {
    if forall d :: !IsTableDefect(table, rows, d) {
      assert !IsTableDefect(table, rows, Unreadable(table));
      assert !IsTableDefect(table, rows, Unscanned(table));
      assert !IsTableDefect(table, rows, Unfinished(table));
    }
  }

  lemma NoBlobDefectExactly(components: seq<Component>, table: string, rows: Rows)
    ensures (forall d :: !IsBlobDefect(components, table, rows, d)) <==>
            rows.Whole() && forall id :: id != "" && rows.Has(id) ==> HasBlob(components, id)
  {
    NoTableDefectExactly(table, rows);
    hide HasBlob, IsTableDefect;
    if forall d :: !IsBlobDefect(components, table, rows, d) {
      forall d ensures !IsTableDefect(table, rows, d) {
        assert !IsBlobDefect(components, table, rows, d);
      }
      forall id | id != "" && rows.Has(id) ensures HasBlob(components, id) {
        assert !IsBlobDefect(components, table, rows, NoBlob(table, id));
      }
    }
    if rows.Whole() && forall id :: id != "" && rows.Has(id) ==> HasBlob(components, id) {
      forall d ensures !IsBlobDefect(components, table, rows, d) {
        assert !IsTableDefect(table, rows, d);
      }
    }
  }

  lemma NoRepositoryDefectExactly(components: seq<Component>, rows: Rows)
    ensures (forall d :: !IsRepositoryDefect(components, rows, d)) <==>
            rows.Whole() && forall r :: rows.Has(r) ==> HasRefs(components, r) && HasObjects(components, r)
  {
    NoTableDefectExactly(REPOSITORY, rows);
    hide HasRefs, HasObjects, IsTableDefect, REPOSITORY;
    if forall d :: !IsRepositoryDefect(components, rows, d) {
      forall d ensures !IsTableDefect(REPOSITORY, rows, d) {
        assert !IsRepositoryDefect(components, rows, d);
      }
      forall r | rows.Has(r) ensures HasRefs(components, r) && HasObjects(components, r) {
        assert !IsRepositoryDefect(components, rows, NoRefs(r)) && !IsRepositoryDefect(components, rows, NoObjects(r));
      }
    }
    if rows.Whole() && forall r :: rows.Has(r) ==> HasRefs(components, r) && HasObjects(components, r) {
      forall d ensures !IsRepositoryDefect(components, rows, d) {
        assert !IsTableDefect(REPOSITORY, rows, d);
      }
    }
  }

  lemma NoCrossDefectExactly(components: seq<Component>, db: Option<References>)
    ensures (forall d :: !IsCrossDefect(components, db, d)) <==> Consistent(components, db)
  {
    hide HasRefs, HasObjects, HasBlob, IsRepositoryDefect, IsBlobDefect;
    if db.None? {
      assert IsCrossDefect(components, db, Unreadable("db.sqlite"));
    } else {
      NoRepositoryDefectExactly(components, db.value.repositories);
      NoBlobDefectExactly(components, LFS, db.value.lfs);
      NoBlobDefectExactly(components, ATTACHMENT, db.value.attachments);
      assert forall d :: IsCrossDefect(components, db, d) <==>
                           || IsRepositoryDefect(components, db.value.repositories, d)
                           || IsBlobDefect(components, LFS, db.value.lfs, d)
                           || IsBlobDefect(components, ATTACHMENT, db.value.attachments, d);
      assert forall id :: RefersTo(db.value, id) <==>
                            id != "" && (db.value.lfs.Has(id) || db.value.attachments.Has(id));
    }
  }

  /** A snapshot has no defect exactly when it is complete, unchanged and consistent. */
  lemma NoDefectExactly(files: Files, manifest: SnapshotManifest, keyNames: seq<string>, db: Option<References>)
    ensures (forall d :: !IsDefect(files, manifest, keyNames, db, d)) <==>
              && manifest.algorithm == ALGORITHM
              && Databases(manifest.components) == 1
              && (forall n :: n in keyNames ==> HasKey(manifest.components, n))
              && (forall c :: c in manifest.components ==> Faithful(files, c))
              && Consistent(manifest.components, db)
  {
    hide Databases, HasKey, Faithful, Consistent, IsCrossDefect, ALGORITHM;
    NoCrossDefectExactly(manifest.components, db);
    if forall d :: !IsDefect(files, manifest, keyNames, db, d) {
      assert !IsDefect(files, manifest, keyNames, db, BadAlgorithm(manifest.algorithm));
      assert !IsDefect(files, manifest, keyNames, db, DatabaseCount(Databases(manifest.components)));
      forall n | n in keyNames ensures HasKey(manifest.components, n) {
        assert !IsDefect(files, manifest, keyNames, db, MissingKey(n));
      }
      forall c | c in manifest.components ensures Faithful(files, c) {
        assert !IsDefect(files, manifest, keyNames, db, BadChecksum(c.path));
      }
      assert forall d :: IsCrossDefect(manifest.components, db, d) ==> IsDefect(files, manifest, keyNames, db, d);
    }
  }

  function DatabaseIndices(components: seq<Component>): set<int> {
    set i | 0 <= i < |components| && components[i].kind == Database
  }

  lemma {:induction false} DatabasesCounted(components: seq<Component>)
    ensures Databases(components) == |DatabaseIndices(components)|
  {
    if components == [] {
      assert DatabaseIndices(components) == {};
    } else {
      var rest, c := components[..|components| - 1], Last(components);
      assert components == rest + [c];
      DatabasesCounted(rest);
      assert DatabaseIndices(rest + [c]) ==
             if c.kind == Database then DatabaseIndices(rest) + {|rest|} else DatabaseIndices(rest);
    }
  }

  /** Each defect, in terms of the files, the manifest and the database's rows. */
  lemma DefectMeans(files: Files, manifest: SnapshotManifest, keyNames: seq<string>, db: Option<References>, d: Defect)
    ensures IsDefect(files, manifest, keyNames, db, d) <==>
            match d
            case BadAlgorithm(name) => name == manifest.algorithm && name != "sha256"
            case DatabaseCount(count) =>
              count == |set i | 0 <= i < |manifest.components| && manifest.components[i].kind == Database| && count != 1
            case MissingKey(name) =>
              name in keyNames && (forall c :: c in manifest.components && c.kind == Keys ==> c.name != name)
            case BadChecksum(path) =>
              (exists c :: c in manifest.components && c.path == path
                           && (path !in files || Sha256(files[path]) != c.checksum))
            case NoRefs(repo) =>
              db.Some? && db.value.repositories.Read? && Some(repo) in db.value.repositories.rows
              && (forall c :: c in manifest.components && c.kind == Git && c.name == repo ==>
                                !HasSuffix(c.path, ".refs.tar"))
            case NoObjects(repo) =>
              db.Some? && db.value.repositories.Read? && Some(repo) in db.value.repositories.rows
              && (forall c :: c in manifest.components && c.kind == Git && c.name == repo ==>
                                !HasSuffix(c.path, ".tar") || HasSuffix(c.path, ".refs.tar"))
            case NoBlob(table, id) =>
              db.Some? && id != ""
              && (forall c :: c in manifest.components && c.kind == Blobs ==> !Contains(c.name, id))
              && ((table == "lfs_meta_object" && db.value.lfs.Read? && Some(id) in db.value.lfs.rows)
                  || (table == "attachment" && db.value.attachments.Read? && Some(id) in db.value.attachments.rows))
            case Unreadable(subject) =>
              if db.None? then subject == "db.sqlite"
              else (subject == "repository" && db.value.repositories.NotQueried?)
                   || (subject == "lfs_meta_object" && db.value.lfs.NotQueried?)
                   || (subject == "attachment" && db.value.attachments.NotQueried?)
            case Unscanned(subject) =>
              db.Some?
              && ((subject == "repository" && db.value.repositories.Read? && None in db.value.repositories.rows)
                  || (subject == "lfs_meta_object" && db.value.lfs.Read? && None in db.value.lfs.rows)
                  || (subject == "attachment" && db.value.attachments.Read? && None in db.value.attachments.rows))
            case Unfinished(subject) =>
              db.Some?
              && ((subject == "repository" && db.value.repositories.Read? && !db.value.repositories.ended)
                  || (subject == "lfs_meta_object" && db.value.lfs.Read? && !db.value.lfs.ended)
                  || (subject == "attachment" && db.value.attachments.Read? && !db.value.attachments.ended))
  {
    DatabasesCounted(manifest.components);
    hide HasSuffix, Contains, Databases;
  }

  // Capture followed by Verify.

  ghost predicate IsItem(s: Source, x: Item) {
    || x == DatabaseItem(s.db)
    || (exists r :: r in s.remotes && x == RefsItem(r))
    || (exists r :: r in s.remotes && x == ObjectsItem(r))
    || (exists k :: k in s.blobs && x == BlobItem(k, s.blobs[k]))
    || (exists k :: k in s.keys && x == KeyItem(k))
  }

  lemma GitItemsAre(remotes: seq<Remote>, x: Item)
    ensures x in RefsItems(remotes) <==> exists r :: r in remotes && x == RefsItem(r)
    ensures x in ObjectsItems(remotes) <==> exists r :: r in remotes && x == ObjectsItem(r)
  {
    hide RefsItem, ObjectsItem;
    forall i | 0 <= i < |remotes| ensures RefsItem(remotes[i]) in RefsItems(remotes) {
      assert RefsItems(remotes)[i] == RefsItem(remotes[i]);
    }
    forall i | 0 <= i < |remotes| ensures ObjectsItem(remotes[i]) in ObjectsItems(remotes) {
      assert ObjectsItems(remotes)[i] == ObjectsItem(remotes[i]);
    }
  }

  lemma BlobItemsAre(order: seq<string>, blobs: Files, x: Item)
    requires Orders(order, blobs)
    ensures x in BlobItems(order, blobs) <==> exists k :: k in blobs && x == BlobItem(k, blobs[k])
  {
    hide BlobItem;
    forall i | 0 <= i < |order| ensures BlobItem(order[i], blobs[order[i]]) in BlobItems(order, blobs) {
      assert BlobItems(order, blobs)[i] == BlobItem(order[i], blobs[order[i]]);
    }
  }

  lemma KeyItemsAre(keys: seq<Secret>, x: Item)
    ensures x in KeyItems(keys) <==> exists k :: k in keys && x == KeyItem(k)
  {
    hide KeyItem;
    forall i | 0 <= i < |keys| ensures KeyItem(keys[i]) in KeyItems(keys) {
      assert KeyItems(keys)[i] == KeyItem(keys[i]);
    }
  }

  lemma ItemsAre(s: Source, order: seq<string>, x: Item)
    requires Orders(order, s.blobs)
    ensures x in Items(s, order) <==> IsItem(s, x)
  {
    GitItemsAre(s.remotes, x);
    BlobItemsAre(order, s.blobs, x);
    KeyItemsAre(s.keys, x);
    hide DatabaseItem, RefsItem, ObjectsItem, BlobItem, KeyItem, Orders;
    var git := RefsItems(s.remotes) + ObjectsItems(s.remotes);
    assert x in Items(s, order) <==>
           x == DatabaseItem(s.db) || x in git || x in BlobItems(order, s.blobs) || x in KeyItems(s.keys);
  }

  ghost predicate OneContentPerPath(items: seq<Item>) {
    forall x, y :: x in items && y in items && x.path == y.path ==> x.content == y.content
  }

  /** A path holds what the last item for it had. */
  lemma {:induction false} LastWriteStays(files: Files, items: seq<Item>, x: Item) returns (last: Item)
    requires x in items
    ensures last in items && last.path == x.path && x.path in Written(files, items)
    ensures Written(files, items)[x.path] == last.content
    decreases |items|
  {
    last := Last(items);
    if last.path != x.path {
      var rest := items[..|items| - 1];
      assert items == rest + [last];
      last := LastWriteStays(files, rest, x);
    }
  }

  /** Everything written is still there as written exactly when no path was given two contents. */
  lemma {:induction false} WrittenIsFaithfulExactly(files: Files, items: seq<Item>)
    ensures (forall x :: x in items ==> Faithful(Written(files, items), x.Recorded())) <==> OneContentPerPath(items)
  {
    var now := Written(files, items);
    if OneContentPerPath(items) {
      forall x | x in items ensures Faithful(now, x.Recorded()) {
        var last := LastWriteStays(files, items, x);
      }
    } else {
      var x, y :| x in items && y in items && x.path == y.path && x.content != y.content;
      assert !Faithful(now, x.Recorded()) || !Faithful(now, y.Recorded());
    }
  }

  /** A listing names each repository and each key once. */
  ghost predicate NamesAreUnique(s: Source) {
    && (forall a, b :: a in s.remotes && b in s.remotes && a.name == b.name ==> a == b)
    && (forall a, b :: a in s.keys && b in s.keys && a.name == b.name ==> a == b)
  }

  /** Where one repository's refs and another's objects share a path, they have the same bytes. */
  ghost predicate SharedPathsAgree(s: Source) {
    forall a, b :: a in s.remotes && b in s.remotes && b.name == a.name + ".refs" ==> a.refs == b.objects
  }

  lemma Cancel(prefix: string, a: string, b: string, suffix: string)
    ensures prefix + a + suffix == prefix + b + suffix <==> a == b
  {
    if prefix + a + suffix == prefix + b + suffix {
      assert a == (prefix + a + suffix)[|prefix|..|prefix| + |a|];
      assert b == (prefix + b + suffix)[|prefix|..|prefix| + |b|];
    }
  }

  lemma GitPaths(a: Remote, b: Remote)
    ensures RefsItem(a).path == RefsItem(b).path <==> a.name == b.name
    ensures ObjectsItem(a).path == ObjectsItem(b).path <==> a.name == b.name
    ensures RefsItem(a).path == ObjectsItem(b).path <==> b.name == a.name + ".refs"
  {
    Cancel("repos/", a.name, b.name, ".refs.tar");
    Cancel("repos/", a.name, b.name, ".tar");
    assert RefsItem(a).path == "repos/" + (a.name + ".refs") + ".tar";
    Cancel("repos/", a.name + ".refs", b.name, ".tar");
  }

  lemma OtherPaths(j: string, k: string)
    ensures "blobs/" + j == "blobs/" + k <==> j == k
    ensures "keys/" + j == "keys/" + k <==> j == k
  {
    assert ("blobs/" + j)[6..] == j && ("blobs/" + k)[6..] == k;
    assert ("keys/" + j)[5..] == j && ("keys/" + k)[5..] == k;
  }

  /** Items of different kinds never share a path. */
  lemma KindsArePlaces(s: Source, x: Item)
    requires IsItem(s, x)
    ensures x.path != ""
    ensures x.path[0] == match x.kind case Git => 'r' case Database => 'd' case Blobs => 'b' case Keys => 'k'
  {
  }

  /** Two items of one path and different bytes. */
  ghost predicate Clash(s: Source, path: string) {
    exists a, b :: a in s.remotes && b in s.remotes && b.name == a.name + ".refs" && a.refs != b.objects
                   && path == RefsItem(a).path
  }

  lemma OtherKindsAgree(s: Source, x: Item, y: Item)
    requires NamesAreUnique(s) && IsItem(s, x) && IsItem(s, y) && x.path == y.path && x.kind != Git
    ensures x.content == y.content
  {
    KindsArePlaces(s, x);
    KindsArePlaces(s, y);
    OtherPaths(x.name, y.name);
  }

  lemma IsGitItem(s: Source, x: Item) returns (r: Remote)
    requires IsItem(s, x) && x.kind == Git
    ensures r in s.remotes && (x == RefsItem(r) || x == ObjectsItem(r))
  {
    r :| r in s.remotes && (x == RefsItem(r) || x == ObjectsItem(r));
  }

  lemma GitClash(s: Source, a: Remote, b: Remote, x: Item, y: Item)
    requires NamesAreUnique(s) && a in s.remotes && b in s.remotes && x.path == y.path && x.content != y.content
    requires (x == RefsItem(a) || x == ObjectsItem(a)) && (y == RefsItem(b) || y == ObjectsItem(b))
    ensures Clash(s, x.path)
  {
    GitPaths(a, b);
    GitPaths(b, a);
  }

  lemma ClashIsNamed(s: Source, x: Item, y: Item)
    requires NamesAreUnique(s) && IsItem(s, x) && IsItem(s, y) && x.path == y.path && x.content != y.content
    ensures Clash(s, x.path)
  {
    hide NamesAreUnique, Clash, RefsItem, ObjectsItem;
    if x.kind != Git {
      OtherKindsAgree(s, x, y);
    } else if y.kind != Git {
      OtherKindsAgree(s, y, x);
    } else {
      hide IsItem;
      var a := IsGitItem(s, x);
      var b := IsGitItem(s, y);
      GitClash(s, a, b, x, y);
    }
  }

  lemma SamePathSameContent(s: Source, x: Item, y: Item)
    requires NamesAreUnique(s) && SharedPathsAgree(s) && IsItem(s, x) && IsItem(s, y) && x.path == y.path
    ensures x.content == y.content
  {
    hide NamesAreUnique, IsItem, RefsItem;
    if x.content != y.content {
      ClashIsNamed(s, x, y);
    }
  }

  /** The database is where it belongs. */
  lemma CapturedDatabase(s: Source, order: seq<string>, before: Files)
    requires Orders(order, s.blobs)
    ensures var now := Written(before, Items(s, order)); "db.sqlite" in now && now["db.sqlite"] == s.db
  {
    hide Items, Written;
    ItemsAre(s, order, DatabaseItem(s.db));
    var last := LastWriteStays(before, Items(s, order), DatabaseItem(s.db));
    ItemsAre(s, order, last);
    KindsArePlaces(s, last);
    KindsArePlaces(s, DatabaseItem(s.db));
  }

  lemma CapturedBlob(s: Source, order: seq<string>, before: Files, k: string)
    requires Orders(order, s.blobs) && k in s.blobs
    ensures var now := Written(before, Items(s, order)); "blobs/" + k in now && now["blobs/" + k] == s.blobs[k]
  {
    hide Items, Written;
    var x := BlobItem(k, s.blobs[k]);
    ItemsAre(s, order, x);
    var last := LastWriteStays(before, Items(s, order), x);
    ItemsAre(s, order, last);
    KindsArePlaces(s, last);
    KindsArePlaces(s, x);
    OtherPaths(last.name, k);
  }

  lemma CapturedKey(s: Source, order: seq<string>, before: Files, k: Secret)
    requires Orders(order, s.blobs) && k in s.keys && forall j :: j in s.keys && j.name == k.name ==> j == k
    ensures var now := Written(before, Items(s, order));
            "keys/" + k.name in now && now["keys/" + k.name] == k.value
  {
    hide Items, Written;
    var x := KeyItem(k);
    ItemsAre(s, order, x);
    var last := LastWriteStays(before, Items(s, order), x);
    ItemsAre(s, order, last);
    KindsArePlaces(s, last);
    KindsArePlaces(s, x);
    OtherPaths(last.name, k.name);
  }

  lemma CapturedRefs(s: Source, order: seq<string>, before: Files, r: Remote)
    requires Orders(order, s.blobs) && r in s.remotes
    requires forall q :: q in s.remotes && q.name == r.name ==> q == r
    requires forall q :: q in s.remotes && q.name == r.name + ".refs" ==> q.objects == r.refs
    ensures var now := Written(before, Items(s, order));
            "repos/" + r.name + ".refs.tar" in now && now["repos/" + r.name + ".refs.tar"] == r.refs
  {
    hide Items, Written, IsItem, RefsItem, ObjectsItem;
    var x := RefsItem(r);
    RefsIs(s, r);
    ItemsAre(s, order, x);
    var last := LastWriteStays(before, Items(s, order), x);
    ItemsAre(s, order, last);
    KindsArePlaces(s, last);
    KindsArePlaces(s, x);
    var q := IsGitItem(s, last);
    RefsIs(s, q);
    GitPaths(r, q);
    GitPaths(q, r);
  }

  lemma RefsIs(s: Source, r: Remote)
    ensures RefsItem(r).path == "repos/" + r.name + ".refs.tar" && ObjectsItem(r).path == "repos/" + r.name + ".tar"
    ensures RefsItem(r).content == r.refs && ObjectsItem(r).content == r.objects
    ensures RefsItem(r).kind == Git && ObjectsItem(r).kind == Git
    ensures r in s.remotes ==> IsItem(s, RefsItem(r)) && IsItem(s, ObjectsItem(r))
  {
  }

  /** Objects are captured after refs, so nothing takes their place. */
  lemma CapturedObjects(s: Source, order: seq<string>, before: Files, r: Remote)
    requires Orders(order, s.blobs) && r in s.remotes
    requires forall q :: q in s.remotes && q.name == r.name ==> q == r
    ensures var now := Written(before, Items(s, order));
            "repos/" + r.name + ".tar" in now && now["repos/" + r.name + ".tar"] == r.objects
  {
    var last := ObjectsAreLater(s, order, before, r);
    hide Items, Written, Orders, RefsItem, ObjectsItem, IsItem;
    RefsIs(s, r);
    KindsArePlaces(s, last);
    KindsArePlaces(s, ObjectsItem(r));
    LateGitItems(s, order, last);
    var q :| q in s.remotes && last == ObjectsItem(q);
    RefsIs(s, q);
    GitPaths(r, q);
  }

  /** The last write to the path of a repository's objects is one of those made after the refs. */
  lemma ObjectsAreLater(s: Source, order: seq<string>, before: Files, r: Remote) returns (last: Item)
    requires Orders(order, s.blobs) && r in s.remotes
    ensures last in ObjectsItems(s.remotes) + (BlobItems(order, s.blobs) + KeyItems(s.keys)) && IsItem(s, last)
    ensures var now := Written(before, Items(s, order));
            last.path == ObjectsItem(r).path && last.path in now && now[last.path] == last.content
  {
    var tail := ObjectsItems(s.remotes) + (BlobItems(order, s.blobs) + KeyItems(s.keys));
    var head := [DatabaseItem(s.db)] + RefsItems(s.remotes);
    assert Items(s, order) == head + tail;
    hide Items, Written, Orders, RefsItem, ObjectsItem, BlobItem, KeyItem;
    WrittenConcat(before, head, tail);
    GitItemsAre(s.remotes, ObjectsItem(r));
    last := LastWriteStays(Written(before, head), tail, ObjectsItem(r));
    ItemsAre(s, order, last);
  }

  lemma LateGitItems(s: Source, order: seq<string>, x: Item)
    requires Orders(order, s.blobs) && x.kind == Git
    requires x in ObjectsItems(s.remotes) + (BlobItems(order, s.blobs) + KeyItems(s.keys))
    ensures exists q :: q in s.remotes && x == ObjectsItem(q)
  {
    GitItemsAre(s.remotes, x);
    BlobItemsAre(order, s.blobs, x);
    KeyItemsAre(s.keys, x);
    hide ObjectsItem, Orders;
  }

  /** What a capture leaves, read off the source: every blob, key, database and object archive at its own
      path, and every refs archive no other repository's objects displace. */
  lemma CapturedFiles(s: Source, order: seq<string>, before: Files)
    requires Orders(order, s.blobs)
    ensures var now := Written(before, Items(s, order));
            && "db.sqlite" in now && now["db.sqlite"] == s.db
            && (forall k :: k in s.blobs ==> "blobs/" + k in now && now["blobs/" + k] == s.blobs[k])
            && (forall k :: k in s.keys && (forall j :: j in s.keys && j.name == k.name ==> j == k) ==>
                  "keys/" + k.name in now && now["keys/" + k.name] == k.value)
            && (forall r :: r in s.remotes && (forall q :: q in s.remotes && q.name == r.name ==> q == r) ==>
                  && "repos/" + r.name + ".tar" in now && now["repos/" + r.name + ".tar"] == r.objects
                  && ((forall q :: q in s.remotes && q.name == r.name + ".refs" ==> q.objects == r.refs) ==>
                       "repos/" + r.name + ".refs.tar" in now && now["repos/" + r.name + ".refs.tar"] == r.refs))
  {
    hide *;
    CapturedDatabase(s, order, before);
    var now := Written(before, Items(s, order));
    forall k | k in s.blobs ensures "blobs/" + k in now && now["blobs/" + k] == s.blobs[k] {
      CapturedBlob(s, order, before, k);
    }
    forall k | k in s.keys && forall j :: j in s.keys && j.name == k.name ==> j == k
      ensures "keys/" + k.name in now && now["keys/" + k.name] == k.value
    {
      CapturedKey(s, order, before, k);
    }
    forall r | r in s.remotes && forall q :: q in s.remotes && q.name == r.name ==> q == r
      ensures "repos/" + r.name + ".tar" in now && now["repos/" + r.name + ".tar"] == r.objects
      ensures (forall q :: q in s.remotes && q.name == r.name + ".refs" ==> q.objects == r.refs) ==>
                "repos/" + r.name + ".refs.tar" in now && now["repos/" + r.name + ".refs.tar"] == r.refs
    {
      CapturedObjects(s, order, before, r);
      if forall q :: q in s.remotes && q.name == r.name + ".refs" ==> q.objects == r.refs {
        CapturedRefs(s, order, before, r);
      }
    }
  }

  lemma BlobsAreThere(before: Files, order: seq<string>, blobs: Files)
    requires Orders(order, blobs)
    ensures var now := Written(before, BlobItems(order, blobs));
            forall k :: k in blobs ==> "blobs/" + k in now && now["blobs/" + k] == blobs[k]
  {
    hide Written, Ascending;
    var items := BlobItems(order, blobs);
    forall k | k in blobs
      ensures "blobs/" + k in Written(before, items) && Written(before, items)["blobs/" + k] == blobs[k]
    {
      BlobItemsAre(order, blobs, BlobItem(k, blobs[k]));
      var last := LastWriteStays(before, items, BlobItem(k, blobs[k]));
      BlobItemsAre(order, blobs, last);
      OtherPaths(last.name, k);
    }
  }

  lemma {:induction false} WrittenByItem(files: Files, items: seq<Item>, path: string) returns (x: Item)
    requires path in Written(files, items) && (path !in files || Written(files, items)[path] != files[path])
    ensures x in items && x.path == path
    decreases |items|
  {
    x := Last(items);
    if x.path != path {
      x := WrittenByItem(files, items[..|items| - 1], path);
    }
  }

  /** Elsewhere a capture leaves the directory as it was. */
  lemma CapturedElsewhere(s: Source, order: seq<string>, before: Files, path: string)
    requires Orders(order, s.blobs)
    requires path != "db.sqlite" && (forall k :: k in s.blobs ==> path != "blobs/" + k)
    requires forall k :: k in s.keys ==> path != "keys/" + k.name
    requires forall r :: r in s.remotes ==>
               path != "repos/" + r.name + ".tar" && path != "repos/" + r.name + ".refs.tar"
    ensures var now := Written(before, Items(s, order));
            (path in now <==> path in before) && (path in now ==> now[path] == before[path])
  {
    hide Items, Written;
    WrittenGrows(before, Items(s, order));
    var now := Written(before, Items(s, order));
    if path in now && (path !in before || now[path] != before[path]) {
      var x := WrittenByItem(before, Items(s, order), path);
      ItemsAre(s, order, x);
    }
  }

  lemma {:induction false} WrittenGrows(files: Files, items: seq<Item>)
    ensures files.Keys <= Written(files, items).Keys
  {
    if items != [] {
      WrittenGrows(files, items[..|items| - 1]);
    }
  }

  /** A listing's manifest, read off the source: a component for each thing captured, with its own path
      and the checksum of its own bytes, and no other. */
  lemma CapturedComponents(s: Source, order: seq<string>, c: Component)
    requires Orders(order, s.blobs)
    ensures c in ManifestOf(s, order).components <==>
              || c == Component(Database, "db.sqlite", "db.sqlite", Sha256(s.db))
              || (exists r :: r in s.remotes
                              && c == Component(Git, r.name, "repos/" + r.name + ".refs.tar", Sha256(r.refs)))
              || (exists r :: r in s.remotes
                              && c == Component(Git, r.name, "repos/" + r.name + ".tar", Sha256(r.objects)))
              || (exists k :: k in s.blobs && c == Component(Blobs, k, "blobs/" + k, Sha256(s.blobs[k])))
              || (exists k :: k in s.keys && c == Component(Keys, k.name, "keys/" + k.name, Sha256(k.value)))
  {
    hide Items, Orders;
    if c in Components(Items(s, order)) {
      var x := ComponentOf(Items(s, order), c);
      ItemsAre(s, order, x);
    }
    if c == DatabaseItem(s.db).Recorded() {
      ItemsAre(s, order, DatabaseItem(s.db));
      RecordedIsThere(Items(s, order), DatabaseItem(s.db));
    }
    if r :| r in s.remotes && c in {RefsItem(r).Recorded(), ObjectsItem(r).Recorded()} {
      ItemsAre(s, order, RefsItem(r));
      ItemsAre(s, order, ObjectsItem(r));
      RecordedIsThere(Items(s, order), RefsItem(r));
      RecordedIsThere(Items(s, order), ObjectsItem(r));
    }
    if k :| k in s.blobs && c == BlobItem(k, s.blobs[k]).Recorded() {
      ItemsAre(s, order, BlobItem(k, s.blobs[k]));
      RecordedIsThere(Items(s, order), BlobItem(k, s.blobs[k]));
    }
    if k :| k in s.keys && c == KeyItem(k).Recorded() {
      ItemsAre(s, order, KeyItem(k));
      RecordedIsThere(Items(s, order), KeyItem(k));
    }
  }

  lemma PathsAreSafeExactly(s: Source, order: seq<string>)
    requires Orders(order, s.blobs) && NamesAreUnique(s)
    ensures OneContentPerPath(Items(s, order)) <==> SharedPathsAgree(s)
  {
    hide Items;
    var items := Items(s, order);
    if SharedPathsAgree(s) {
      forall x, y | x in items && y in items && x.path == y.path ensures x.content == y.content {
        ItemsAre(s, order, x);
        ItemsAre(s, order, y);
        SamePathSameContent(s, x, y);
      }
    } else {
      var a, b :| a in s.remotes && b in s.remotes && b.name == a.name + ".refs" && a.refs != b.objects;
      GitPaths(a, b);
      ItemsAre(s, order, RefsItem(a));
      ItemsAre(s, order, ObjectsItem(b));
    }
  }

  /** Which of the two a repository's object archive is taken for. */
  lemma ObjectsLookLikeRefsExactly(r: Remote)
    ensures IsRefs(RefsItem(r).Recorded())
    ensures IsRefs(ObjectsItem(r).Recorded()) <==> HasSuffix(r.name, ".refs")
    ensures IsObjects(ObjectsItem(r).Recorded()) <==> !HasSuffix(r.name, ".refs")
  {
    var n, path := r.name, "repos/" + r.name + ".tar";
    var refs := RefsItem(r).path;
    assert refs[|refs| - 9..] == ".refs.tar";
    assert path[|path| - 4..] == ".tar";
    if |n| >= 5 {
      var end := n[|n| - 5..];
      assert path[|path| - 9..] == end + ".tar";
      assert "" + end + ".tar" == end + ".tar" && "" + ".refs" + ".tar" == ".refs.tar";
      Cancel("", end, ".refs", ".tar");
    } else {
      var i := 5 - (|path| - 9);
      assert path[|path| - 9..][i] == '/';
      assert forall j :: 0 <= j < 9 ==> ".refs.tar"[j] != '/';
    }
  }

  /** A row of the captured database finds its refs exactly when the repository was captured, and
      its objects exactly when, besides, its name does not end in ".refs". */
  lemma RepositoryIsFoundExactly(s: Source, order: seq<string>, row: string)
    requires Orders(order, s.blobs)
    ensures var components := Components(Items(s, order));
            && (HasRefs(components, row) <==> IsCaptured(s, row))
            && (HasObjects(components, row) <==> IsCaptured(s, row) && !HasSuffix(row, ".refs"))
  {
    hide Items, IsRefs, IsObjects;
    var components := Components(Items(s, order));
    forall c | c in components && c.kind == Git && c.name == row
      ensures exists r :: r in s.remotes && r.name == row
                          && (c == RefsItem(r).Recorded() || c == ObjectsItem(r).Recorded())
    {
      var x := ComponentOf(Items(s, order), c);
      ItemsAre(s, order, x);
    }
    if r :| r in s.remotes && r.name == row {
      ObjectsLookLikeRefsExactly(r);
      ItemsAre(s, order, RefsItem(r));
      ItemsAre(s, order, ObjectsItem(r));
      RecordedIsThere(Items(s, order), RefsItem(r));
      RecordedIsThere(Items(s, order), ObjectsItem(r));
    }
    forall r | r in s.remotes && r.name == row
      ensures IsObjects(ObjectsItem(r).Recorded()) <==> !HasSuffix(row, ".refs")
      ensures !IsObjects(RefsItem(r).Recorded())
    {
      ObjectsLookLikeRefsExactly(r);
      NotBoth(RefsItem(r).Recorded());
    }
    GitOnly();
  }

  lemma NotBoth(c: Component)
    ensures !(IsRefs(c) && IsObjects(c))
  {
  }

  lemma GitOnly()
    ensures forall c :: IsRefs(c) || IsObjects(c) ==> c.kind == Git
  {
  }

  lemma ComponentOf(items: seq<Item>, c: Component) returns (x: Item)
    requires c in Components(items)
    ensures x in items && c == x.Recorded()
  {
    var i :| 0 <= i < |items| && Components(items)[i] == c;
    x := items[i];
  }

  lemma RecordedIsThere(items: seq<Item>, x: Item)
    requires x in items
    ensures x.Recorded() in Components(items)
  {
    var i :| 0 <= i < |items| && items[i] == x;
    assert Components(items)[i] == x.Recorded();
  }

  lemma {:induction false} DatabasesConcat(a: seq<Component>, b: seq<Component>)
    ensures Databases(a + b) == Databases(a) + Databases(b)
    decreases |b|
  {
    if b == [] {
      assert a + b == a;
    } else {
      assert (a + b)[..|a + b| - 1] == a + b[..|b| - 1];
      DatabasesConcat(a, b[..|b| - 1]);
    }
  }

  lemma {:induction false} NoDatabases(components: seq<Component>)
    requires forall c :: c in components ==> c.kind != Database
    ensures Databases(components) == 0
  {
    if components != [] {
      NoDatabases(components[..|components| - 1]);
    }
  }

  /** A capture is complete: one database, and every key it was asked for. */
  lemma CaptureIsComplete(s: Source, order: seq<string>)
    requires Orders(order, s.blobs)
    ensures Databases(Components(Items(s, order))) == 1
    ensures forall k :: k in s.keys ==> HasKey(Components(Items(s, order)), k.name)
  {
    OneDatabase(s, order);
    hide Items, Databases;
    var items := Items(s, order);
    forall k | k in s.keys ensures HasKey(Components(items), k.name) {
      ItemsAre(s, order, KeyItem(k));
      RecordedIsThere(items, KeyItem(k));
    }
  }

  lemma OneDatabase(s: Source, order: seq<string>)
    requires Orders(order, s.blobs)
    ensures Databases(Components(Items(s, order))) == 1
  {
    var tail := RefsItems(s.remotes) + ObjectsItems(s.remotes) + BlobItems(order, s.blobs) + KeyItems(s.keys);
    assert Items(s, order) == [DatabaseItem(s.db)] + tail;
    assert forall x :: x in tail ==> x.kind != Database;
    DatabaseFirst(DatabaseItem(s.db), tail);
    hide Items, Databases;
  }

  lemma DatabaseFirst(x: Item, tail: seq<Item>)
    requires x.kind == Database && forall y :: y in tail ==> y.kind != Database
    ensures Databases(Components([x] + tail)) == 1
  {
    var one, rest := [x.Recorded()], Components(tail);
    assert Components([x] + tail) == one + rest;
    assert one[..0] == [] && Databases(one) == 1;
    DatabasesConcat(one, rest);
    NoDatabases(rest);
  }

  lemma BlobIsFoundExactly(s: Source, order: seq<string>, id: string)
    requires Orders(order, s.blobs)
    ensures HasBlob(Components(Items(s, order)), id) <==> exists k :: k in s.blobs && Contains(k, id)
  {
    hide Items, Contains;
    var components := Components(Items(s, order));
    if c :| c in components && c.kind == Blobs && Contains(c.name, id) {
      var x := ComponentOf(Items(s, order), c);
      ItemsAre(s, order, x);
    }
    if k :| k in s.blobs && Contains(k, id) {
      ItemsAre(s, order, BlobItem(k, s.blobs[k]));
      RecordedIsThere(Items(s, order), BlobItem(k, s.blobs[k]));
    }
  }

  predicate IsCaptured(s: Source, row: string) {
    exists r :: r in s.remotes && r.name == row
  }

  /** The database opens and is read whole, and refers to nothing the capture lacks and to no repository
      named like refs. */
  ghost predicate ReferencesMet(s: Source, db: Option<References>) {
    && IsWhole(db)
    && (forall row :: db.value.repositories.Has(row) ==> IsCaptured(s, row) && !HasSuffix(row, ".refs"))
    && (forall id :: RefersTo(db.value, id) ==> exists k :: k in s.blobs && Contains(k, id))
  }

  lemma ConsistentExactly(s: Source, order: seq<string>, db: Option<References>)
    requires Orders(order, s.blobs)
    ensures Consistent(Components(Items(s, order)), db) <==> ReferencesMet(s, db)
  {
    hide Items, HasRefs, HasObjects, HasBlob, HasSuffix, Contains, IsCaptured;
    var components := Components(Items(s, order));
    forall row
      ensures HasRefs(components, row) <==> IsCaptured(s, row)
      ensures HasObjects(components, row) <==> IsCaptured(s, row) && !HasSuffix(row, ".refs")
    {
      RepositoryIsFoundExactly(s, order, row);
    }
    forall id ensures HasBlob(components, id) <==> exists k :: k in s.blobs && Contains(k, id) {
      BlobIsFoundExactly(s, order, id);
    }
  }

  lemma FaithfulExactly(s: Source, order: seq<string>, before: Files)
    requires Orders(order, s.blobs) && NamesAreUnique(s)
    ensures (forall c :: c in Components(Items(s, order)) ==> Faithful(Written(before, Items(s, order)), c))
            <==> SharedPathsAgree(s)
  {
    hide Items, Written, Faithful, NamesAreUnique, SharedPathsAgree, OneContentPerPath;
    var items := Items(s, order);
    WrittenIsFaithfulExactly(before, items);
    PathsAreSafeExactly(s, order);
    forall c | c in Components(items) ensures exists x :: x in items && x.Recorded() == c {
      var x := ComponentOf(items, c);
    }
    forall x | x in items ensures x.Recorded() in Components(items) {
      RecordedIsThere(items, x);
    }
  }

  method KeyNames(keys: seq<Secret>) returns (names: seq<string>)
    ensures forall n :: n in names <==> exists k :: k in keys && k.name == n
  {
    names := [];
    for i := 0 to |keys|
      invariant forall n :: n in names <==> exists k :: k in keys[..i] && k.name == n
    {
      assert keys[..i + 1] == keys[..i] + [keys[i]];
      assert forall k :: k in keys[..i + 1] <==> k in keys[..i] || k == keys[i];
      names := names + [keys[i].name];
    }
    assert keys[..|keys|] == keys;
  }

  /** What went wrong with reading the captured database. */
  predicate IsReadingDefect(db: Option<References>, d: Defect) {
    if db.None? then d == Unreadable("db.sqlite")
    else
      || IsTableDefect(REPOSITORY, db.value.repositories, d)
      || IsTableDefect(LFS, db.value.lfs, d)
      || IsTableDefect(ATTACHMENT, db.value.attachments, d)
  }

  /** What is wrong with a fresh capture, told from what was captured: a repository whose refs share
      a path with other bytes, and what the database refers to and the capture cannot give. */
  ghost predicate IsCaptureDefect(s: Source, db: Option<References>, d: Defect) {
    match d
    case BadChecksum(path) => Clash(s, path)
    case NoObjects(row) =>
      db.Some? && db.value.repositories.Has(row) && (!IsCaptured(s, row) || HasSuffix(row, ".refs"))
    case NoRefs(row) => db.Some? && db.value.repositories.Has(row) && !IsCaptured(s, row)
    case NoBlob(table, id) =>
      db.Some? && id != "" && !(exists k :: k in s.blobs && Contains(k, id))
      && ((table == LFS && db.value.lfs.Has(id)) || (table == ATTACHMENT && db.value.attachments.Has(id)))
    case Unreadable(_) => IsReadingDefect(db, d)
    case Unscanned(_) => IsReadingDefect(db, d)
    case Unfinished(_) => IsReadingDefect(db, d)
    case _ => false
  }

  lemma UnfaithfulIsClash(s: Source, order: seq<string>, before: Files, c: Component)
    requires Orders(order, s.blobs) && NamesAreUnique(s)
    requires c in Components(Items(s, order)) && !Faithful(Written(before, Items(s, order)), c)
    ensures Clash(s, c.path)
  {
    hide Items, Written, Orders, NamesAreUnique, Clash, IsItem;
    var x := ComponentOf(Items(s, order), c);
    var y := LastWriteStays(before, Items(s, order), x);
    ItemsAre(s, order, x);
    ItemsAre(s, order, y);
    ClashIsNamed(s, x, y);
  }

  lemma ClashIsUnfaithful(s: Source, order: seq<string>, before: Files, path: string) returns (c: Component)
    requires Orders(order, s.blobs) && Clash(s, path)
    ensures c in Components(Items(s, order)) && c.path == path && !Faithful(Written(before, Items(s, order)), c)
  {
    hide Items, Written, Orders;
    var a, b :| a in s.remotes && b in s.remotes && b.name == a.name + ".refs" && a.refs != b.objects
                && path == RefsItem(a).path;
    var x, y := RefsItem(a), ObjectsItem(b);
    GitPaths(a, b);
    ItemsAre(s, order, x);
    ItemsAre(s, order, y);
    RecordedIsThere(Items(s, order), x);
    RecordedIsThere(Items(s, order), y);
    c := if Faithful(Written(before, Items(s, order)), x.Recorded()) then y.Recorded() else x.Recorded();
  }

  lemma CaptureChecksums(s: Source, order: seq<string>, before: Files, d: Defect)
    requires Orders(order, s.blobs) && NamesAreUnique(s) && d.BadChecksum?
    ensures IsChecksumDefect(Written(before, Items(s, order)), Components(Items(s, order)), d) <==> Clash(s, d.path)
  {
    hide Items, Written, Orders, NamesAreUnique, Clash, Faithful;
    if c :| c in Components(Items(s, order)) && c.path == d.path && !Faithful(Written(before, Items(s, order)), c) {
      UnfaithfulIsClash(s, order, before, c);
    }
    if Clash(s, d.path) {
      var c := ClashIsUnfaithful(s, order, before, d.path);
    }
  }

  lemma CaptureCross(s: Source, order: seq<string>, db: Option<References>, d: Defect)
    requires Orders(order, s.blobs) && !d.BadChecksum?
    ensures IsCrossDefect(Components(Items(s, order)), db, d) <==> IsCaptureDefect(s, db, d)
  {
    hide Items, HasRefs, HasObjects, HasBlob, HasSuffix, Contains, IsCaptured;
    match d
    case NoObjects(row) => RepositoryIsFoundExactly(s, order, row);
    case NoRefs(row) => RepositoryIsFoundExactly(s, order, row);
    case NoBlob(_, id) => BlobIsFoundExactly(s, order, id);
    case _ =>
  }

  /** The defects Verify finds in a fresh capture are those, exactly. */
  lemma CaptureDefectsExactly(s: Source, order: seq<string>, before: Files, keyNames: seq<string>,
                              db: Option<References>, d: Defect)
    requires Orders(order, s.blobs) && NamesAreUnique(s)
    requires forall n :: n in keyNames <==> exists k :: k in s.keys && k.name == n
    ensures IsDefect(Written(before, Items(s, order)), ManifestOf(s, order), keyNames, db, d)
            <==> IsCaptureDefect(s, db, d)
  {
    CaptureIsComplete(s, order);
    hide Items, Written, NamesAreUnique, HasKey, Databases, HasSuffix, Contains, IsCaptured, HasBlob;
    hide HasRefs, HasObjects;
    if d.BadChecksum? {
      CaptureChecksums(s, order, before, d);
    } else {
      CaptureCross(s, order, db, d);
    }
  }

  /** A fresh capture is clean exactly when no repository's refs and another's objects disagree over
      one path, and the database's references are met. */
  lemma CaptureIsCleanExactly(s: Source, order: seq<string>, before: Files, keyNames: seq<string>,
                              db: Option<References>)
    requires Orders(order, s.blobs) && NamesAreUnique(s)
    requires forall n :: n in keyNames <==> exists k :: k in s.keys && k.name == n
    ensures (forall d :: !IsDefect(Written(before, Items(s, order)), ManifestOf(s, order), keyNames, db, d))
            <==> SharedPathsAgree(s) && ReferencesMet(s, db)
  {
    hide Items, Written, Faithful, NamesAreUnique, SharedPathsAgree, Consistent, ReferencesMet, HasKey;
    hide Databases, IsDefect;
    NoDefectExactly(Written(before, Items(s, order)), ManifestOf(s, order), keyNames, db);
    CaptureIsComplete(s, order);
    ConsistentExactly(s, order, db);
    FaithfulExactly(s, order, before);
  }

  /** Capture, then verify what was captured. */
  method CaptureAndVerify(dir: SnapshotDir, s: Source, db: Option<References>) returns (defects: seq<Defect>)
    requires NamesAreUnique(s)
    modifies dir
    ensures forall d :: d in defects <==> IsCaptureDefect(s, db, d)
    ensures defects == [] <==> SharedPathsAgree(s) && ReferencesMet(s, db)
  {
    hide Items, Written, NamesAreUnique, IsDefect, IsCaptureDefect, SharedPathsAgree, ReferencesMet;
    var manifest, order := dir.CaptureAll(s);
    var names := KeyNames(s.keys);
    defects := Verify(dir.files, manifest, names, db);
    forall d ensures IsDefect(dir.files, manifest, names, db, d) <==> IsCaptureDefect(s, db, d) {
      CaptureDefectsExactly(s, order, old(dir.files), names, db, d);
    }
    CaptureIsCleanExactly(s, order, old(dir.files), names, db);
    assert defects != [] ==> defects[0] in defects;
  }

  /** A repository called like another's refs: its own capture is reported to lack its objects, and
      where the two differ the path they share is reported changed, in a capture nobody touched. */
  lemma DotRefsRepositoryFails(s: Source, order: seq<string>, before: Files, keyNames: seq<string>,
                               db: Option<References>,
                               a: Remote, b: Remote)
    requires Orders(order, s.blobs) && NamesAreUnique(s)
    requires forall n :: n in keyNames <==> exists k :: k in s.keys && k.name == n
    requires a in s.remotes && b in s.remotes && b.name == a.name + ".refs"
    ensures db.Some? && db.value.repositories.Has(b.name) ==>
              IsDefect(Written(before, Items(s, order)), ManifestOf(s, order), keyNames, db, NoObjects(b.name))
    ensures a.refs != b.objects ==>
              IsDefect(Written(before, Items(s, order)), ManifestOf(s, order), keyNames, db,
                       BadChecksum(ObjectsItem(b).path))
  {
    hide Items, Written, NamesAreUnique, IsDefect;
    assert HasSuffix(b.name, ".refs") by {
      assert b.name[|b.name| - 5..] == ".refs";
    }
    GitPaths(a, b);
    CaptureDefectsExactly(s, order, before, keyNames, db, NoObjects(b.name));
    CaptureDefectsExactly(s, order, before, keyNames, db, BadChecksum(ObjectsItem(b).path));
  }
}
