/**
 The end of a backup (internal/core/backup/orchestrate.go): the snapshot is archived and sealed, what
 was sealed is opened again and verified, and then it is put at the destination.
 */
module SnapshotDelivery {
  import opened Prelude
  import opened Paths
  import opened SnapshotVerify
  import opened SnapshotArchive
  import opened SnapshotTrees
  import opened StagedInstall

  /** An age archive: sealed to a recipient, or bytes nobody can open. */
  datatype Archive = Sealed(recipient: string, headers: seq<Header>) | Garbage

  datatype Identity = Identity(recipient: string)

  function Opened(archive: Archive, identity: Identity): Option<seq<Header>> {
    if archive.Sealed? && archive.recipient == identity.recipient then Some(archive.headers) else None
  }

  /** What a snapshot is verified against; `parse` is what a database file refers to, if it opens. */
  datatype Terms = Terms(manifest: SnapshotManifest, keyNames: seq<string>, parse: string -> Option<References>)

  type Reader = string -> Option<string>

  function ContentOf(entry: Option<Entry>): Option<string> {
    if entry.Some? && entry.value.File? then Some(entry.value.content) else None
  }

  /** The file a component path names in a directory, and in a tree. */
  function ReadAt(disk: Entries, root: Root, path: string): Option<string> {
    ContentOf(At(disk, Target(root, path)))
  }

  function ReadTree(children: seq<Child>, path: string): Option<string> {
    ContentOf(Lookup(children, PathOf(path)))
  }

  function DiskReader(disk: Entries, root: Root): Reader {
    path => ReadAt(disk, root, path)
  }

  function TreeReader(children: seq<Child>): Reader {
    path => ReadTree(children, path)
  }

  /** A database that is not there opens as an empty one. */
  function DatabaseOf(content: Option<string>, t: Terms): Option<References> {
    t.parse(if content.Some? then content.value else "")
  }

  ghost predicate Holds(read: Reader, c: Component) {
    read(c.path).Some? && Sha256(read(c.path).value) == c.checksum
  }

  /** What Verify asks of a directory whose files `read` gives. */
  ghost predicate Verifies(read: Reader, t: Terms) {
    && t.manifest.algorithm == ALGORITHM
    && Databases(t.manifest.components) == 1
    && (forall n :: n in t.keyNames ==> HasKey(t.manifest.components, n))
    && (forall c :: c in t.manifest.components ==> Holds(read, c))
    && Consistent(t.manifest.components, DatabaseOf(read("db.sqlite"), t))
  }

  ghost predicate ArchiveVerifies(disk: Entries, root: Root, archive: Archive, identity: Identity, t: Terms) {
    && Opened(archive, identity).Some?
    && ExtractedAll(disk, root, Opened(archive, identity).value).Ok?
    && Verifies(DiskReader(ExtractedAll(disk, root, Opened(archive, identity).value).value, root), t)
  }

  ghost predicate AreRead(disk: Entries, root: Root, components: seq<Component>, files: Files) {
    forall c :: c in components ==>
      if ReadAt(disk, root, c.path).Some? then c.path in files && files[c.path] == ReadAt(disk, root, c.path).value
      else c.path !in files
  }

  method ReadComponents(disk: Entries, root: Root, components: seq<Component>) returns (files: Files)
    ensures AreRead(disk, root, components, files)
  {
    hide ReadAt;
    files := map[];
    for i := 0 to |components|
      invariant forall p :: p in files ==> ReadAt(disk, root, p) == Some(files[p])
      invariant forall c :: c in components[..i] && ReadAt(disk, root, c.path).Some? ==> c.path in files
    {
      var content := ReadAt(disk, root, components[i].path);
      if content.Some? {
        files := files[components[i].path := content.value];
      }
    }
  }

  lemma FilesAreFaithful(disk: Entries, root: Root, components: seq<Component>, files: Files)
    requires AreRead(disk, root, components, files)
    ensures forall c :: c in components ==> (Faithful(files, c) <==> Holds(DiskReader(disk, root), c))
  {
    hide ReadAt;
  }

  /** verifyEncrypted, into whatever the destination directory already holds. */
  method VerifyEncrypted(fs: FileSystem, root: Root, archive: Archive, identity: Identity, t: Terms) returns (ok: bool)
    modifies fs
    ensures ok <==> ArchiveVerifies(old(fs.disk), root, archive, identity, t)
  {
    hide ReadAt, Faithful, Databases, HasKey, Consistent, Extracted, Holds, IsDefect, AreRead, ALGORITHM;
    var payload := Opened(archive, identity);
    if payload.None? {
      return false;
    }
    var failure := fs.Untar(root, payload.value);
    if failure.Some? {
      return false;
    }
    var files := ReadComponents(fs.disk, root, t.manifest.components);
    var db := DatabaseOf(ReadAt(fs.disk, root, "db.sqlite"), t);
    var defects := Verify(files, t.manifest, t.keyNames, db);
    NoDefectExactly(files, t.manifest, t.keyNames, db);
    FilesAreFaithful(fs.disk, root, t.manifest.components, files);
    ok := defects == [];
    assert defects != [] ==> defects[0] in defects;
  }

  /** Bytes nobody can open, and an archive sealed to another recipient, never verify. */
  lemma OnlyItsOwnIdentityOpens(disk: Entries, root: Root, archive: Archive, identity: Identity, t: Terms)
    ensures ArchiveVerifies(disk, root, archive, identity, t) ==>
              archive.Sealed? && archive.recipient == identity.recipient
              && ExtractedAll(disk, root, archive.headers).Ok?
  {
    hide ExtractedAll, Verifies, DiskReader;
  }

  class Destination {
    var objects: map<string, Archive>

    constructor ()
      ensures objects == map[]
    {
      objects := map[];
    }
  }

  /** Whatever the sealing step made of the snapshot, it is put at the destination exactly when its own
      decrypted contents verify and the put succeeds. */
  method VerifyAndWrite(fs: FileSystem, root: Root, archive: Archive, identity: Identity, t: Terms,
                        dest: Destination, key: string, writable: bool)
    returns (ok: bool)
    modifies fs, dest
    ensures ok <==> ArchiveVerifies(old(fs.disk), root, archive, identity, t) && writable
    ensures dest.objects == if ok then old(dest.objects)[key := archive] else old(dest.objects)
  {
    hide ArchiveVerifies;
    ok := VerifyEncrypted(fs, root, archive, identity, t);
    if ok && writable {
      dest.objects := dest.objects[key := archive];
    } else {
      ok := false;
    }
  }

  // The second verification.

  /** Where the tree has no file for a path, no leftover stands in for one. */
  predicate NoStandIn(disk: Entries, root: Root, children: seq<Child>, path: string) {
    && AreNames(PathOf(path))
    && (Lookup(children, PathOf(path)).Some? || At(disk, root.path + PathOf(path)).None?)
  }

  lemma ReadsAgree(disk: Entries, after: Entries, root: Root, children: seq<Child>, path: string)
    requires NoStandIn(disk, root, children, path) && Rebuilt(disk, after, root, children)
    ensures ReadAt(after, root, path) == ReadTree(children, path)
  {
    ResolveNames(root.path, PathOf(path), root.absolute);
    assert Target(root, path) == root.path + PathOf(path);
    assert PathOf(path) != [];
  }

  ghost predicate NothingStandsIn(disk: Entries, root: Root, children: seq<Child>, t: Terms) {
    && NoStandIn(disk, root, children, "db.sqlite")
    && forall c :: c in t.manifest.components ==> NoStandIn(disk, root, children, c.path)
  }

  /** Verification depends on nothing but the database and the components' files. */
  lemma ReadersAgree(read: Reader, other: Reader, t: Terms)
    requires read("db.sqlite") == other("db.sqlite")
    requires forall c :: c in t.manifest.components ==> read(c.path) == other(c.path)
    ensures Verifies(read, t) <==> Verifies(other, t)
  {
    hide Databases, HasKey, Consistent, DatabaseOf, ALGORITHM;
    assert forall c :: c in t.manifest.components ==> (Holds(read, c) <==> Holds(other, c));
  }

  lemma TreeAndDiskAgree(disk: Entries, after: Entries, root: Root, children: seq<Child>, t: Terms)
    requires NothingStandsIn(disk, root, children, t) && Rebuilt(disk, after, root, children)
    ensures Verifies(DiskReader(after, root), t) <==> Verifies(TreeReader(children), t)
  {
    hide ReadAt, ReadTree, Verifies, NoStandIn, Rebuilt;
    ReadsAgree(disk, after, root, children, "db.sqlite");
    forall c | c in t.manifest.components ensures ReadAt(after, root, c.path) == ReadTree(children, c.path) {
      ReadsAgree(disk, after, root, children, c.path);
    }
    ReadersAgree(DiskReader(after, root), TreeReader(children), t);
  }

  lemma SealedVerifies(disk: Entries, root: Root, headers: seq<Header>, identity: Identity, t: Terms)
    ensures ArchiveVerifies(disk, root, Sealed(identity.recipient, headers), identity, t)
            <==> ExtractedAll(disk, root, headers).Ok?
                 && Verifies(DiskReader(ExtractedAll(disk, root, headers).value, root), t)
  {
    hide ExtractedAll, Verifies, DiskReader;
  }

  /** Sealed and opened again, a snapshot verifies exactly when it did before it was sealed and nothing
      left over at the place it is opened is in its way. */
  lemma SecondVerificationAgrees(disk: Entries, root: Root, children: seq<Child>, identity: Identity, t: Terms)
    requires root.Valid() && WellFormed(children) && NothingStandsIn(disk, root, children, t)
    ensures ArchiveVerifies(disk, root, Sealed(identity.recipient, Walk([], children)), identity, t)
            <==> Extractable(disk, root, children) && Verifies(TreeReader(children), t)
  {
    hide *;
    SealedVerifies(disk, root, Walk([], children), identity, t);
    var after := TreeIsRebuilt(disk, root, children);
    if Extractable(disk, root, children) {
      TreeAndDiskAgree(disk, after, root, children, t);
    }
  }

  // From capture to destination.

  lemma CapturedPaths(s: Source, order: seq<string>, c: Component)
    requires Orders(order, s.blobs) && c in Components(Items(s, order))
    ensures c.path in Written(map[], Items(s, order))
  {
    hide Items, Written;
    var x := ComponentOf(Items(s, order), c);
    var last := LastWriteStays(map[], Items(s, order), x);
  }

  /** No component has the manifest's path. */
  lemma ManifestStandsApart(s: Source, order: seq<string>)
    requires Orders(order, s.blobs)
    ensures MANIFEST_FILE !in Written(map[], Items(s, order))
  {
    hide Items, Written;
    assert MANIFEST_FILE[0] == 's';
    if MANIFEST_FILE in Written(map[], Items(s, order)) {
      var x := WrittenByItem(map[], Items(s, order), MANIFEST_FILE);
      ItemsAre(s, order, x);
      KindsArePlaces(s, x);
    }
  }

  /** The tree of a snapshot: its components, and its manifest. */
  ghost predicate IsSnapshotTree(children: seq<Child>, base: seq<Child>, items: seq<Item>, manifest: string) {
    && Placeable(base, SnapshotWrites(items, manifest))
    && Shows(children, base, SnapshotWrites(items, manifest))
    && MANIFEST_FILE !in Written(map[], items)
  }

  lemma ShownFile(children: seq<Child>, base: seq<Child>, items: seq<Item>, manifest: string, path: string)
    requires IsSnapshotTree(children, base, items, manifest) && path in Written(map[], items)
    ensures ReadTree(children, path) == Some(Written(map[], items)[path])
    ensures AreNames(PathOf(path)) && Lookup(children, PathOf(path)).Some?
  {
    hide Lookup, PathOf, Written, Placeable, Shows, MANIFEST_FILE;
    SnapshotHolds(children, base, items, manifest, path);
  }

  lemma TreeVerifiesExactly(children: seq<Child>, base: seq<Child>, items: seq<Item>, manifest: string, t: Terms)
    requires IsSnapshotTree(children, base, items, manifest) && "db.sqlite" in Written(map[], items)
    requires forall c :: c in t.manifest.components ==> c.path in Written(map[], items)
    requires t.manifest.algorithm == ALGORITHM && Databases(t.manifest.components) == 1
    requires forall n :: n in t.keyNames ==> HasKey(t.manifest.components, n)
    ensures Verifies(TreeReader(children), t)
            <==> (forall c :: c in t.manifest.components ==> Faithful(Written(map[], items), c))
                 && Consistent(t.manifest.components, t.parse(Written(map[], items)["db.sqlite"]))
  {
    hide ReadTree, Databases, HasKey, Consistent, IsSnapshotTree, ALGORITHM, PathOf, Written;
    var files := Written(map[], items);
    ShownFile(children, base, items, manifest, "db.sqlite");
    forall c | c in t.manifest.components ensures Holds(TreeReader(children), c) <==> Faithful(files, c) {
      ShownFile(children, base, items, manifest, c.path);
    }
    assert TreeReader(children)("db.sqlite") == Some(files["db.sqlite"]);
  }

  lemma NothingStandsInForACapture(disk: Entries, root: Root, s: Source, order: seq<string>, children: seq<Child>,
                                   base: seq<Child>, manifest: string, t: Terms)
    requires Orders(order, s.blobs) && t.manifest == ManifestOf(s, order)
    requires IsSnapshotTree(children, base, Items(s, order), manifest)
    ensures NothingStandsIn(disk, root, children, t)
  {
    hide Items, Written, PathOf, IsSnapshotTree, Lookup;
    CapturedDatabase(s, order, map[]);
    ShownFile(children, base, Items(s, order), manifest, "db.sqlite");
    forall c | c in t.manifest.components ensures NoStandIn(disk, root, children, c.path) {
      CapturedPaths(s, order, c);
      ShownFile(children, base, Items(s, order), manifest, c.path);
    }
  }

  lemma CapturedTreeVerifiesExactly(s: Source, order: seq<string>, children: seq<Child>, base: seq<Child>,
                                    manifest: string, t: Terms)
    requires Orders(order, s.blobs) && NamesAreUnique(s) && t.manifest == ManifestOf(s, order)
    requires IsSnapshotTree(children, base, Items(s, order), manifest)
    requires forall n :: n in t.keyNames <==> exists k :: k in s.keys && k.name == n
    ensures Verifies(TreeReader(children), t) <==> SharedPathsAgree(s) && ReferencesMet(s, t.parse(s.db))
  {
    hide Items, Written, IsSnapshotTree, NamesAreUnique, SharedPathsAgree, ReferencesMet, Verifies, Faithful;
    hide Consistent, Databases, HasKey, Orders;
    var items := Items(s, order);
    CapturedDatabase(s, order, map[]);
    CaptureIsComplete(s, order);
    ConsistentExactly(s, order, t.parse(s.db));
    FaithfulExactly(s, order, map[]);
    forall c | c in t.manifest.components ensures c.path in Written(map[], items) {
      CapturedPaths(s, order, c);
    }
    TreeVerifiesExactly(children, base, items, manifest, t);
  }

  /** What a backup leaves in its snapshot directory, from whatever a killed one had left there. */
  function SnapshotTree(base: seq<Child>, s: Source, order: seq<string>, manifest: string): seq<Child>
    requires Orders(order, s.blobs)
  {
    TreeOf(base, SnapshotWrites(Items(s, order), manifest))
  }

  lemma SnapshotTreeIs(base: seq<Child>, s: Source, order: seq<string>, manifest: string)
    requires Orders(order, s.blobs)
    requires WellFormed(base) && Placeable(base, SnapshotWrites(Items(s, order), manifest))
    ensures WellFormed(SnapshotTree(base, s, order, manifest))
    ensures IsSnapshotTree(SnapshotTree(base, s, order, manifest), base, Items(s, order), manifest)
  {
    hide TreeOf, Items, Written, Placeable, Shows, MANIFEST_FILE, SnapshotWrites, WellFormed;
    CaptureTree(base, SnapshotWrites(Items(s, order), manifest));
    ManifestStandsApart(s, order);
  }

  /** The whole pipeline: the tree a backup leaves, its manifest and any leftovers with it, archived,
      sealed and opened again, verifies exactly when nothing left over where it is opened is in its way
      and the capture itself was sound. */
  lemma SealedCaptureVerifiesExactly(disk: Entries, root: Root, base: seq<Child>, s: Source, order: seq<string>,
                                     manifest: string, identity: Identity, t: Terms)
    requires Orders(order, s.blobs) && NamesAreUnique(s) && root.Valid()
    requires WellFormed(base) && Placeable(base, SnapshotWrites(Items(s, order), manifest))
    requires t.manifest == ManifestOf(s, order)
    requires forall n :: n in t.keyNames <==> exists k :: k in s.keys && k.name == n
    ensures var children := SnapshotTree(base, s, order, manifest);
            ArchiveVerifies(disk, root, Sealed(identity.recipient, Walk([], children)), identity, t)
            <==> Extractable(disk, root, children) && SharedPathsAgree(s) && ReferencesMet(s, t.parse(s.db))
  {
    hide *;
    var children := SnapshotTree(base, s, order, manifest);
    SnapshotTreeIs(base, s, order, manifest);
    NothingStandsInForACapture(disk, root, s, order, children, base, manifest, t);
    SecondVerificationAgrees(disk, root, children, identity, t);
    CapturedTreeVerifiesExactly(s, order, children, base, manifest, t);
  }

  /** What can be read of a captured component where the sealed archive was extracted. */
  lemma CapturedReadsBack(disk: Entries, after: Entries, root: Root, base: seq<Child>, s: Source, order: seq<string>,
                          manifest: string, path: string)
    requires Orders(order, s.blobs) && root.Valid()
    requires WellFormed(base) && Placeable(base, SnapshotWrites(Items(s, order), manifest))
    requires Rebuilt(disk, after, root, SnapshotTree(base, s, order, manifest))
    requires path in Written(map[], Items(s, order))
    ensures ReadAt(after, root, path) == Some(Written(map[], Items(s, order))[path])
  {
    hide *;
    var children := SnapshotTree(base, s, order, manifest);
    SnapshotTreeIs(base, s, order, manifest);
    ShownFile(children, base, Items(s, order), manifest, path);
    FoundHere(disk, root, children, path);
    ReadsAgree(disk, after, root, children, path);
  }

  lemma FoundHere(disk: Entries, root: Root, children: seq<Child>, path: string)
    requires AreNames(PathOf(path)) && Lookup(children, PathOf(path)).Some?
    ensures NoStandIn(disk, root, children, path)
  {
  }

  /** What extracts from an accepted snapshot is the source, byte for byte, with no word about how it was
      captured: its database, its blobs, its keys, each repository's refs and objects, at their paths, beside its
      manifest. */
  lemma SealedCaptureReadsBack(disk: Entries, root: Root, base: seq<Child>, s: Source, order: seq<string>,
                               manifest: string, identity: Identity, t: Terms)
    returns (after: Entries)
    requires Orders(order, s.blobs) && NamesAreUnique(s) && root.Valid()
    requires WellFormed(base) && Placeable(base, SnapshotWrites(Items(s, order), manifest))
    requires t.manifest == ManifestOf(s, order)
    requires forall n :: n in t.keyNames <==> exists k :: k in s.keys && k.name == n
    requires ArchiveVerifies(disk, root, Sealed(identity.recipient, Walk([], SnapshotTree(base, s, order, manifest))),
                             identity, t)
    ensures ExtractedAll(disk, root, Walk([], SnapshotTree(base, s, order, manifest))) == Ok(after)
    ensures ReadAt(after, root, "db.sqlite") == Some(s.db)
    ensures forall k :: k in s.blobs ==> ReadAt(after, root, "blobs/" + k) == Some(s.blobs[k])
    ensures forall k :: k in s.keys ==> ReadAt(after, root, "keys/" + k.name) == Some(k.value)
    ensures forall r :: r in s.remotes ==>
              && ReadAt(after, root, "repos/" + r.name + ".refs.tar") == Some(r.refs)
              && ReadAt(after, root, "repos/" + r.name + ".tar") == Some(r.objects)
    ensures ReadAt(after, root, "snapshot-manifest.json") == Some(manifest)
  {
    hide *;
    var children := SnapshotTree(base, s, order, manifest);
    SnapshotTreeIs(base, s, order, manifest);
    ManifestFound(children, base, Items(s, order), manifest);
    SealedCaptureVerifiesExactly(disk, root, base, s, order, manifest, identity, t);
    after := TreeIsRebuilt(disk, root, children);
    CapturedFiles(s, order, map[]);
    FoundHere(disk, root, children, "snapshot-manifest.json");
    ReadsAgree(disk, after, root, children, "snapshot-manifest.json");
    CapturedReadsBack(disk, after, root, base, s, order, manifest, "db.sqlite");
    forall k | k in s.blobs ensures ReadAt(after, root, "blobs/" + k) == Some(s.blobs[k]) {
      CapturedReadsBack(disk, after, root, base, s, order, manifest, "blobs/" + k);
    }
    forall k | k in s.keys ensures ReadAt(after, root, "keys/" + k.name) == Some(k.value) {
      KeyIsUnique(s, k);
      CapturedReadsBack(disk, after, root, base, s, order, manifest, "keys/" + k.name);
    }
    forall r | r in s.remotes
      ensures ReadAt(after, root, "repos/" + r.name + ".refs.tar") == Some(r.refs)
      ensures ReadAt(after, root, "repos/" + r.name + ".tar") == Some(r.objects)
    {
      RemoteIsUnique(s, r);
      CapturedReadsBack(disk, after, root, base, s, order, manifest, "repos/" + r.name + ".refs.tar");
      CapturedReadsBack(disk, after, root, base, s, order, manifest, "repos/" + r.name + ".tar");
    }
  }

  lemma ManifestFound(children: seq<Child>, base: seq<Child>, items: seq<Item>, manifest: string)
    requires IsSnapshotTree(children, base, items, manifest)
    ensures ReadTree(children, "snapshot-manifest.json") == Some(manifest)
    ensures AreNames(PathOf("snapshot-manifest.json")) && Lookup(children, PathOf("snapshot-manifest.json")).Some?
  {
    hide Lookup, PathOf, Placeable, Shows, MANIFEST_FILE;
    ManifestIsThere(children, base, items, manifest);
  }

  lemma KeyIsUnique(s: Source, k: Secret)
    requires NamesAreUnique(s) && k in s.keys
    ensures forall j :: j in s.keys && j.name == k.name ==> j == k
  {
  }

  lemma RemoteIsUnique(s: Source, r: Remote)
    requires NamesAreUnique(s) && SharedPathsAgree(s) && r in s.remotes
    ensures forall q :: q in s.remotes && q.name == r.name ==> q == r
    ensures forall q :: q in s.remotes && q.name == r.name + ".refs" ==> q.objects == r.refs
  {
  }
}
