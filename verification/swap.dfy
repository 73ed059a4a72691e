/**
 Replacing a directory of rendered Compose files through a staging directory:
 Bundle.Save and Load on the local disk (internal/core/bundle/bundle.go), and the
 same three phases of orchestrate.Converge on a host (internal/core/orchestrate/converge.go).

 `history` holds the directory pair after every file-system operation, so a claim
 about all of it is a claim about every point the process can stop at.
 */
module StagedInstall {
  import opened Prelude
  import opened Text

  type Files = map<string, string>

  datatype Disk = Disk(installed: Option<Files>, staging: Option<Files>)

  /** What a recursive removal of `was` can have left. */
  predicate Remnant(now: Option<Files>, was: Option<Files>) {
    now.None? || (was.Some? && now.value.Keys <= was.value.Keys
                  && forall n :: n in now.value ==> now.value[n] == was.value[n])
  }

  /** The old directory is whole, or the new one is complete on disk. */
  predicate OneVersion(d: Disk, was: Option<Files>, files: Files) {
    || d.installed == was
    || (Remnant(d.installed, was) && d.staging == Some(files))
    || d == Disk(Some(files), None)
  }

  function Without(files: Files, names: seq<string>): Files {
    files - set n | n in names
  }

  /** The names of a directory's files, each once, in some order. */
  ghost predicate Lists(order: seq<string>, files: Files) {
    Distinct(order) && forall n :: n in order <==> n in files
  }

  ghost predicate ListsSome(order: seq<string>, files: Files) {
    Distinct(order) && forall n :: n in order ==> n in files
  }

  /** The states that unlinking `order` one by one leads through. */
  function Unlinkings(files: Files, staging: Option<Files>, order: seq<string>): seq<Disk> {
    seq(|order|, i requires 0 <= i < |order| => Disk(Some(Without(files, order[..i + 1])), staging))
  }

  /** And removing the emptied directory at the end. */
  function Removal(files: Files, staging: Option<Files>, order: seq<string>): seq<Disk> {
    Unlinkings(files, staging, order) + [Disk(None, staging)]
  }

  /** The states from the complete staging directory on. */
  function Swap(was: Option<Files>, files: Files, order: seq<string>): seq<Disk> {
    (if was.Some? then Removal(was.value, Some(files), order) else []) + [Disk(Some(files), None)]
  }

  /** What of it a run with `writes` of the swap's two to make gets to. */
  function SwapUpTo(was: Option<Files>, files: Files, order: seq<string>, writes: nat): seq<Disk> {
    if writes == 0 then []
    else if writes == 1 then if was.Some? then Removal(was.value, Some(files), order) else []
    else Swap(was, files, order)
  }

  /** `history` from `start` on: the installed directory untouched up to `swap`, and then those states. */
  ghost predicate SwapsFrom(history: seq<Disk>, start: nat, swap: nat, was: Option<Files>, states: seq<Disk>) {
    && start <= swap <= |history|
    && (forall i :: start <= i < swap ==> history[i].installed == was)
    && history[swap..] == states
  }

  lemma SwapIsOneVersion(was: Option<Files>, files: Files, order: seq<string>)
    requires was.Some? ==> Lists(order, was.value)
    ensures forall d :: d in Swap(was, files, order) ==> OneVersion(d, was, files)
  {
    if was.Some? {
      forall d | d in Unlinkings(was.value, Some(files), order) ensures OneVersion(d, was, files) {
        var i :| 0 <= i < |order| && d == Unlinkings(was.value, Some(files), order)[i];
      }
    }
  }

  /** Over every such history, and so at every file operation of Save and Converge, the old directory is
      whole or the new one is complete on disk. */
  lemma AlwaysOneVersion(history: seq<Disk>, start: nat, swap: nat, was: Option<Files>, files: Files,
                         order: seq<string>, writes: nat)
    requires was.Some? && writes > 0 ==> Lists(order, was.value)
    requires SwapsFrom(history, start, swap, was, SwapUpTo(was, files, order, writes))
    ensures forall i :: start <= i < |history| ==> OneVersion(history[i], was, files)
  {
    if writes > 0 {
      SwapIsOneVersion(was, files, order);
    }
    hide Lists, OneVersion, Removal;
    forall i | swap <= i < |history| ensures OneVersion(history[i], was, files) {
      assert history[i] == history[swap..][i - swap];
      assert history[i] in SwapUpTo(was, files, order, writes);
      PartOfSwap(history[i], was, files, order, writes);
    }
    forall i | start <= i < swap ensures OneVersion(history[i], was, files) {
      OldIsOneVersion(history[i], was, files);
    }
  }

  lemma PartOfSwap(d: Disk, was: Option<Files>, files: Files, order: seq<string>, writes: nat)
    requires d in SwapUpTo(was, files, order, writes)
    ensures writes > 0 && d in Swap(was, files, order)
  {
  }

  lemma OldIsOneVersion(d: Disk, was: Option<Files>, files: Files)
    requires d.installed == was
    ensures OneVersion(d, was, files)
  {
  }

  lemma Append<T>(a: seq<T>, b: seq<T>, x: T)
    ensures a + b + [x] == a + (b + [x])
  {
  }

  lemma NothingUnlinked(files: Files, staging: Option<Files>)
    ensures Without(files, []) == files && Unlinkings(files, staging, []) == [] && ListsSome([], files)
  {
  }

  lemma AllUnlinked(files: Files, order: seq<string>)
    requires ListsSome(order, files) && Without(files, order) == map[]
    ensures Lists(order, files)
  {
    assert forall n :: n in files && n !in order ==> n in Without(files, order);
  }

  lemma UnlinkOne(files: Files, staging: Option<Files>, order: seq<string>, n: string)
    requires ListsSome(order, files) && n in Without(files, order)
    ensures ListsSome(order + [n], files)
    ensures Without(files, order + [n]) == Without(files, order) - {n}
    ensures Unlinkings(files, staging, order + [n])
            == Unlinkings(files, staging, order) + [Disk(Some(Without(files, order + [n])), staging)]
  {
    var more := order + [n];
    assert more[..|more|] == more;
    forall i | 0 <= i < |order| ensures Unlinkings(files, staging, more)[i] == Unlinkings(files, staging, order)[i] {
      assert more[..i + 1] == order[..i + 1];
    }
  }

  function Temporary(name: string): string {
    name + ".tmp"
  }

  /** A file written beside its target and moved into place. */
  function Put(files: Files, name: string, content: string): Files {
    (files - {Temporary(name)})[name := content]
  }

  function Shipped(files: Files, names: seq<string>, from: Files): Files
    requires forall n :: n in names ==> n in from
    decreases |names|
  {
    if names == [] then files else Shipped(Put(files, names[0], from[names[0]]), names[1..], from)
  }

  predicate Ascending(names: seq<string>) {
    forall i, j :: 0 <= i < j < |names| ==> Less(names[i], names[j])
  }

  /** A later name's temporary file is never an earlier name. */
  lemma TemporaryIsLater(earlier: string, later: string)
    requires Less(earlier, later)
    ensures Temporary(later) != earlier
  {
    LessIsOneWay(earlier, later);
    LessThanExtension(later, ".tmp");
  }

  /** Shipping in ascending order leaves exactly the files shipped. */
  lemma {:induction false} AscendingShipsAll(files: Files, done: seq<string>, names: seq<string>, from: Files)
    requires Ascending(done + names)
    requires forall n :: n in done + names ==> n in from
    requires files == map n | n in done :: from[n]
    ensures forall n :: n in names ==> n in from
    ensures Shipped(files, names, from) == map n | n in done + names :: from[n]
    decreases |names|
  {
    assert forall n :: n in names ==> n in done + names;
    if names == [] {
      assert done + names == done;
    } else {
      var name := names[0];
      assert (done + names)[|done|] == name;
      forall n | n in done ensures n != Temporary(name) {
        var i :| 0 <= i < |done| && done[i] == n;
        assert (done + names)[i] == n;
        TemporaryIsLater(n, name);
      }
      var next := done + [name];
      assert next + names[1..] == done + names;
      assert Put(files, name, from[name]) == map n | n in next :: from[n];
      AscendingShipsAll(Put(files, name, from[name]), next, names[1..], from);
    }
  }

  /** The order is what makes it so: the other way round, a temporary file takes a shipped
      file's place and is moved away. */
  lemma UnsortedShippingLosesAFile()
    ensures var from: Files := map["a" := "1", "a.tmp" := "2"];
            Shipped(map[], ["a.tmp", "a"], from) == map["a" := "1"]
  {
    var from: Files := map["a" := "1", "a.tmp" := "2"];
    assert Temporary("a") == "a.tmp";
    assert Put(map[], "a.tmp", "2") == map["a.tmp" := "2"];
    assert Put(map["a.tmp" := "2"], "a", "1") == map["a" := "1"];
    assert ["a.tmp", "a"][1..] == ["a"] && ["a"][1..] == [];
  }

  lemma ShipsExactly(names: seq<string>, files: Files)
    requires Ascending(names)
    requires forall n :: n in names <==> n in files
    ensures Shipped(map[], names, files) == files
  {
    assert [] + names == names;
    AscendingShipsAll(map[], [], names, files);
    assert files == map n | n in names :: files[n];
  }

  method SortedNames(files: Files) returns (names: seq<string>)
    ensures Ascending(names)
    ensures forall n :: n in names <==> n in files
  {
    names := [];
    var rest := files.Keys;
    while rest != {}
      invariant Ascending(names)
      invariant forall n :: n in files <==> n in names || n in rest
      invariant forall n, m :: n in names && m in rest ==> Less(n, m)
      decreases |rest|
    {
      var least := Least(rest);
      rest := rest - {least};
      names := names + [least];
    }
  }

  method Least(names: set<string>) returns (least: string)
    requires names != {}
    ensures least in names && forall m :: m in names ==> m == least || Less(least, m)
  {
    least :| least in names;
    var rest := names - {least};
    while rest != {}
      invariant rest <= names && least in names
      invariant forall m :: m in names - rest ==> m == least || Less(least, m)
      decreases |rest|
    {
      var m :| m in rest;
      rest := rest - {m};
      LessIsTotal(m, least);
      if Less(m, least) {
        forall k | k in names - rest ensures k == m || Less(m, k) {
          if k != m && k != least {
            LessIsTransitive(m, least, k);
          }
        }
        least := m;
      }
    }
  }

  /** The Compose directory and the staging directory beside it. */
  class ComposeFolder {
    var installed: Option<Files>
    var staging: Option<Files>
    ghost var history: seq<Disk>

    constructor ()
      ensures installed == None && staging == None && history == []
    {
      installed, staging, history := None, None, [];
    }

    ghost function Now(): Disk
      reads this
    {
      Disk(installed, staging)
    }

    /** The states passed through since `history` had length `n`. */
    ghost function Since(n: nat): seq<Disk>
      reads this
      requires n <= |history|
    {
      history[n..]
    }

    method ClearStaging()
      modifies this
      ensures staging == None && installed == old(installed)
      ensures old(history) <= history
      ensures forall d :: d in Since(|old(history)|) ==> d.installed == installed
    {
      while staging.Some? && staging.value != map[]
        invariant installed == old(installed) && old(history) <= history
        invariant forall d :: d in Since(|old(history)|) ==> d.installed == installed
        decreases if staging.Some? then |staging.value.Keys| else 0
      {
        var n :| n in staging.value;
        assert (staging.value - {n}).Keys == staging.value.Keys - {n};
        staging := Some(staging.value - {n});
        history := history + [Now()];
      }
      if staging.Some? {
        staging := None;
        history := history + [Now()];
      }
    }

    method Prepare()
      modifies this
      ensures staging == Some(map[]) && installed == old(installed)
      ensures old(history) <= history
      ensures forall d :: d in Since(|old(history)|) ==> d.installed == installed
    {
      ClearStaging();
      staging := Some(map[]);
      history := history + [Now()];
    }

    /** writeFile, and Client.WriteFile on a host: write the temporary file, then rename it. */
    method Write(name: string, content: string)
      requires staging.Some?
      modifies this
      ensures staging == Some(Put(old(staging).value, name, content)) && installed == old(installed)
      ensures old(history) <= history
      ensures forall d :: d in Since(|old(history)|) ==> d.installed == installed
    {
      ghost var before := staging.value;
      staging := Some(staging.value[Temporary(name) := content]);
      history := history + [Now()];
      staging := Some((staging.value - {Temporary(name)})[name := content]);
      history := history + [Now()];
      assert before[Temporary(name) := content] - {Temporary(name)} == before - {Temporary(name)};
    }

    method Ship(files: Files)
      requires staging == Some(map[])
      modifies this
      ensures staging == Some(files) && installed == old(installed)
      ensures old(history) <= history
      ensures forall d :: d in Since(|old(history)|) ==> d.installed == installed
    {
      var names := SortedNames(files);
      ShipsExactly(names, files);
      assert names[0..] == names;
      hide Put, Ascending;
      for i := 0 to |names|
        invariant staging.Some? && installed == old(installed) && old(history) <= history
        invariant Shipped(staging.value, names[i..], files) == files
        invariant forall d :: d in Since(|old(history)|) ==> d.installed == installed
      {
        assert names[i..][1..] == names[i + 1..] && names[i..][0] == names[i];
        Write(names[i], files[names[i]]);
      }
    }

    method Unlink(n: string)
      requires installed.Some? && n in installed.value
      modifies this
      ensures installed == Some(old(installed).value - {n}) && staging == old(staging)
      ensures |installed.value.Keys| < |old(installed).value.Keys|
      ensures history == old(history) + [Now()]
    {
      assert (installed.value - {n}).Keys == installed.value.Keys - {n};
      installed := Some(installed.value - {n});
      history := history + [Now()];
    }

    /** Empty the old directory, in whatever order the file system lists its files. */
    method UnlinkAll() returns (ghost order: seq<string>)
      requires installed.Some?
      modifies this
      ensures installed == Some(map[]) && staging == old(staging)
      ensures Lists(order, old(installed).value)
      ensures history == old(history) + Unlinkings(old(installed).value, staging, order)
    {
      hide Without, Unlinkings, ListsSome, Lists;
      order := [];
      ghost var was, beside, before := installed.value, staging, history;
      NothingUnlinked(was, beside);
      assert before + [] == before;
      while installed.value != map[]
        invariant staging == beside && installed == Some(Without(was, order))
        invariant ListsSome(order, was)
        invariant history == before + Unlinkings(was, beside, order)
        decreases |installed.value.Keys|
      {
        var n :| n in installed.value.Keys;
        UnlinkOne(was, beside, order, n);
        Unlink(n);
        ghost var last := Disk(Some(Without(was, order + [n])), beside);
        Append(before, Unlinkings(was, beside, order), last);
        order := order + [n];
      }
      AllUnlinked(was, order);
    }

    /** Remove the old directory: its files one by one and then the directory itself. */
    method RemoveInstalled() returns (ghost order: seq<string>)
      modifies this
      ensures installed == None && staging == old(staging)
      ensures old(installed).None? ==> order == [] && history == old(history)
      ensures old(installed).Some? ==>
                Lists(order, old(installed).value)
                && history == old(history) + Removal(old(installed).value, staging, order)
    {
      order := [];
      if installed.Some? {
        hide Unlinkings, Lists;
        order := UnlinkAll();
        Append(old(history), Unlinkings(old(installed).value, staging, order), Disk(None, staging));
        installed := None;
        history := history + [Now()];
      }
    }

    /** Rename the staging directory into place; a rename onto a directory with files in it fails. */
    method Install()
      requires staging.Some? && installed.None?
      modifies this
      ensures installed == old(staging) && staging == None
      ensures history == old(history) + [Now()]
    {
      installed, staging := staging, None;
      history := history + [Now()];
    }
  }

  // The local bundle directory.

  /** A manifest and Validate's verdict on it. */
  datatype Manifest = Manifest(text: string, valid: bool)

  datatype Bundle = Bundle(manifest: Manifest, compose: Files)

  datatype LoadError = NoManifest | InvalidManifest | NoCompose

  function Loaded(manifest: Option<Manifest>, installed: Option<Files>): Result<Bundle, LoadError> {
    if manifest.None? then Err(NoManifest)
    else if !manifest.value.valid then Err(InvalidManifest)
    else if installed.None? || installed.value == map[] then Err(NoCompose)
    else Ok(Bundle(manifest.value, installed.value))
  }

  predicate Saveable(b: Bundle) {
    b.manifest.valid && b.compose != map[]
  }

  /** What loads is what could have been saved, and nothing else: a directory without a manifest or with an
      invalid one is refused for that whatever its compose/ holds, and one without Compose files for that. */
  lemma LoadsExactly(manifest: Option<Manifest>, installed: Option<Files>, b: Bundle)
    ensures Loaded(manifest, installed) == Ok(b) <==>
            Saveable(b) && manifest == Some(b.manifest) && installed == Some(b.compose)
    ensures Loaded(manifest, installed) == Err(NoManifest) <==> manifest.None?
    ensures Loaded(manifest, installed) == Err(InvalidManifest) <==> manifest.Some? && !manifest.value.valid
    ensures Loaded(manifest, installed) == Err(NoCompose) <==>
            manifest.Some? && manifest.value.valid && installed in {None, Some(map[])}
  {
  }

  class BundleFolder {
    const compose: ComposeFolder
    var manifest: Option<Manifest>

    constructor ()
      ensures fresh(compose) && manifest == None && compose.Now() == Disk(None, None)
    {
      compose := new ComposeFolder();
      manifest := None;
    }

    /** Save from any starting state. Up to `swap` in the history the installed directory is the old
        one; from there on the states are those of the swap, in the order the old files are unlinked.
        The manifest is the last thing to change. */
    method Save(b: Bundle) returns (ok: bool, ghost swap: nat, ghost order: seq<string>)
      modifies this, compose
      ensures ok == Saveable(b)
      ensures !ok ==> manifest == old(manifest) && unchanged(compose)
      ensures ok ==> manifest == Some(b.manifest) && compose.Now() == Disk(Some(b.compose), None)
      ensures ok ==> Loaded(manifest, compose.installed) == Ok(b)
      ensures old(compose.history) <= compose.history
      ensures ok ==>
                && (old(compose.installed).Some? ==> Lists(order, old(compose.installed).value))
                && SwapsFrom(compose.history, |old(compose.history)|, swap, old(compose.installed),
                             Swap(old(compose.installed), b.compose, order))
    {
      if !b.manifest.valid || b.compose == map[] {
        return false, |compose.history|, [];
      }
      compose.Prepare();
      compose.Ship(b.compose);
      swap := |compose.history|;
      ghost var before := compose.history;
      order := compose.RemoveInstalled();
      compose.Install();
      assert compose.history[swap..] == Swap(old(compose.installed), b.compose, order);
      assert compose.history[..swap] == before;
      forall i | |old(compose.history)| <= i < swap
        ensures compose.history[i].installed == old(compose.installed)
      {
        assert compose.history[i] == before[i] && before[i] in before[|old(compose.history)|..];
      }
      manifest := Some(b.manifest);
      return true, swap, order;
    }
  }

  lemma RemnantAt(was: Files, files: Files, order: seq<string>, d: Disk)
    requires Lists(order, was)
    ensures d in Swap(Some(was), files, order) <==>
            || (exists k :: 0 < k <= |order| && d == Disk(Some(Without(was, order[..k])), Some(files)))
            || d == Disk(None, Some(files)) || d == Disk(Some(files), None)
  {
    var unlinkings := Unlinkings(was, Some(files), order);
    if d in unlinkings {
      var i :| 0 <= i < |order| && unlinkings[i] == d;
      assert d == Disk(Some(Without(was, order[..i + 1])), Some(files));
    }
    if k :| 0 < k <= |order| && d == Disk(Some(Without(was, order[..k])), Some(files)) {
      assert unlinkings[k - 1] == d;
    }
  }

  /** Some of the files but not the first `k` unlinked; none are left only at the end. */
  lemma RemnantHasFiles(was: Files, order: seq<string>, k: nat)
    requires Lists(order, was) && 0 < k <= |order|
    ensures Without(was, order[..k]) != was
    ensures Without(was, order[..k]) == map[] <==> k == |order|
    ensures forall l :: k < l <= |order| ==> Without(was, order[..l]) != Without(was, order[..k])
  {
    assert order[0] in order[..k] && order[0] in was;
    if k < |order| {
      assert order[k] !in order[..k] && order[k] in Without(was, order[..k]);
    } else {
      assert order[..k] == order;
    }
    forall l | k < l <= |order| ensures Without(was, order[..l]) != Without(was, order[..k]) {
      assert order[k] in order[..l] && order[k] !in order[..k] && order[k] in was;
    }
  }

  /** What a reader can find where a re-save stopped in its swap: the old manifest, beside all the new
      files or what is left of the old ones after any number of unlinkings, and nothing else. */
  lemma StoppedSaveLoads(was: Bundle, b: Bundle, order: seq<string>, loaded: Bundle)
    requires Saveable(was) && Saveable(b) && Lists(order, was.compose)
    ensures (exists d :: d in Swap(Some(was.compose), b.compose, order)
                         && Loaded(Some(was.manifest), d.installed) == Ok(loaded))
            <==> loaded.manifest == was.manifest
                 && (loaded.compose == b.compose
                     || exists k :: 0 < k < |order| && loaded.compose == Without(was.compose, order[..k]))
  {
    hide Swap, Without;
    if d :| d in Swap(Some(was.compose), b.compose, order) && Loaded(Some(was.manifest), d.installed) == Ok(loaded) {
      RemnantAt(was.compose, b.compose, order, d);
      if k :| 0 < k <= |order| && d == Disk(Some(Without(was.compose, order[..k])), Some(b.compose)) {
        RemnantHasFiles(was.compose, order, k);
      }
    }
    if loaded.manifest == was.manifest && loaded.compose == b.compose {
      RemnantAt(was.compose, b.compose, order, Disk(Some(b.compose), None));
      assert Loaded(Some(was.manifest), Disk(Some(b.compose), None).installed) == Ok(loaded);
    }
    if loaded.manifest == was.manifest {
      if k :| 0 < k < |order| && loaded.compose == Without(was.compose, order[..k]) {
        RemnantHasFiles(was.compose, order, k);
        var d := Disk(Some(loaded.compose), Some(b.compose));
        RemnantAt(was.compose, b.compose, order, d);
        assert Loaded(Some(was.manifest), d.installed) == Ok(loaded);
      }
    }
  }

  ghost predicate WholeAtEveryStop(was: Bundle, b: Bundle, order: seq<string>) {
    forall d :: d in Swap(Some(was.compose), b.compose, order) && Loaded(Some(was.manifest), d.installed).Ok? ==>
                  d.installed == Some(was.compose) || d.installed == Some(b.compose)
  }

  /** The old files are unlinked one by one, so every state a re-save passes through loads as a whole
      version exactly when the old bundle has a single file, or has two and what the first unlinking
      leaves happens to be the new files. */
  lemma StoppedSaveIsWholeExactly(was: Bundle, b: Bundle, order: seq<string>)
    requires Saveable(was) && Saveable(b) && Lists(order, was.compose)
    ensures WholeAtEveryStop(was, b, order) <==>
            |order| == 1 || (|order| == 2 && Without(was.compose, order[..1]) == b.compose)
  {
    hide Swap, Without;
    var some :| some in was.compose;
    assert some in order;
    forall k | 0 < k < |order|
      ensures var d := Disk(Some(Without(was.compose, order[..k])), Some(b.compose));
              d in Swap(Some(was.compose), b.compose, order) && Loaded(Some(was.manifest), d.installed).Ok?
              && d.installed != Some(was.compose)
    {
      RemnantAt(was.compose, b.compose, order, Disk(Some(Without(was.compose, order[..k])), Some(b.compose)));
      RemnantHasFiles(was.compose, order, k);
    }
    var one := Disk(Some(Without(was.compose, order[..1])), Some(b.compose));
    if |order| >= 2 {
      assert one in Swap(Some(was.compose), b.compose, order);
      assert WholeAtEveryStop(was, b, order) ==> one.installed == Some(b.compose);
    }
    if |order| >= 3 {
      RemnantHasFiles(was.compose, order, 1);
      var two := Disk(Some(Without(was.compose, order[..2])), Some(b.compose));
      assert two in Swap(Some(was.compose), b.compose, order) && two.installed != one.installed;
      assert WholeAtEveryStop(was, b, order) ==> two.installed == Some(b.compose);
    }
    if !WholeAtEveryStop(was, b, order) {
      var d :| d in Swap(Some(was.compose), b.compose, order) && Loaded(Some(was.manifest), d.installed).Ok?
               && d.installed != Some(was.compose) && d.installed != Some(b.compose);
      RemnantAt(was.compose, b.compose, order, d);
      var k :| 0 < k <= |order| && d == Disk(Some(Without(was.compose, order[..k])), Some(b.compose));
      RemnantHasFiles(was.compose, order, k);
    }
  }

  lemma {:induction false} CountOfListing(order: seq<string>, files: Files)
    requires Lists(order, files)
    ensures |order| == |files.Keys|
    decreases |order|
  {
    if order == [] {
      assert files.Keys == {};
    } else {
      var n, rest := order[0], order[1..];
      assert order == [n] + rest;
      assert (files - {n}).Keys == files.Keys - {n};
      forall m ensures m in rest <==> m in files - {n} {
        if m in rest {
          assert m in order && m != n;
        }
      }
      CountOfListing(rest, files - {n});
    }
  }

  lemma SomeListing(files: Files) returns (order: seq<string>)
    ensures Lists(order, files)
  {
    order := [];
    var rest := files.Keys;
    while rest != {}
      invariant Distinct(order) && rest !! set n | n in order
      invariant forall n :: n in files <==> n in order || n in rest
      decreases |rest|
    {
      var n :| n in rest;
      rest, order := rest - {n}, order + [n];
    }
  }

  /** Whatever order the file system lists the old files in: a re-save is sure to pass only through states
      that load as whole versions exactly when the old bundle has a single file. */
  lemma ResaveIsWholeExactly(was: Bundle, b: Bundle)
    requires Saveable(was) && Saveable(b)
    ensures (forall order :: Lists(order, was.compose) ==> WholeAtEveryStop(was, b, order)) <==> |was.compose.Keys| == 1
  {
    hide WholeAtEveryStop, Lists;
    forall order | Lists(order, was.compose)
      ensures |order| == |was.compose.Keys|
      ensures WholeAtEveryStop(was, b, order) <==>
              |order| == 1 || (|order| == 2 && Without(was.compose, order[..1]) == b.compose)
    {
      CountOfListing(order, was.compose);
      StoppedSaveIsWholeExactly(was, b, order);
    }
    var order := SomeListing(was.compose);
    if |order| == 2 {
      var other := [order[1], order[0]];
      OtherWayRound(order, was.compose);
      FirstDiffers(order, was.compose);
    }
    if |order| == 0 {
      NothingListed(order, was.compose);
    }
  }

  lemma NothingListed(order: seq<string>, files: Files)
    requires Lists(order, files) && order == []
    ensures files == map[]
  {
    assert files.Keys == {};
  }

  lemma OtherWayRound(order: seq<string>, files: Files)
    requires Lists(order, files) && |order| == 2
    ensures Lists([order[1], order[0]], files)
  {
    var other := [order[1], order[0]];
    forall n ensures n in other <==> n in order {
      assert other[0] == order[1] && other[1] == order[0];
    }
  }

  /** Unlinking one or the other of two files first does not leave the same. */
  lemma FirstDiffers(order: seq<string>, files: Files)
    requires Lists(order, files) && |order| == 2
    ensures Without(files, order[..1]) != Without(files, [order[1], order[0]][..1])
  {
    assert order[0] in order && order[..1] == [order[0]] && [order[1], order[0]][..1] == [order[1]];
    assert order[0] !in Without(files, order[..1]) && order[0] in Without(files, [order[1]]);
  }
}
