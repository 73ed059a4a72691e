/** What holds of a host directory over every sequence of deployments to it, by any bundles, each
    stopped at any of its writes. */
module HostTheorems {
  import opened Prelude
  import opened HostState

  type Moves = seq<(Deployment, nat)>

  function Run(h: Host, moves: Moves): Host
    decreases |moves|
  {
    if moves == [] then h else Run(After(h, moves[0].0, moves[0].1), moves[1..])
  }

  // One deployment.

  /** What every stop of a deployment keeps, whatever its records read as. */
  predicate Redeployed(h: Host, d: Deployment, s: Host) {
    && (s != h ==> Admitted(h, d) && s.recorded == d.recordedOwner)
    && (s.installed == h.installed || s.installed == d.owner.key)
    && (h.project.Some? ==> s.project == h.project)
    && (s.project != h.project ==> s.project == Some(if h.shipped then LEGACY else d.project))
    && (s.shipped && s.project.None? ==> h.shipped)
    && (h.shipped && !s.shipped ==> s.project.Some?)
    && (s.image == h.image || (VersionAllowed(h, d) && s.image == d.recordedImage))
    && (s.started == h.started
        || (s.started == h.started + [Container(Resolved(s), d.image, d.owner.key)]
            && s.project.Some? && s.image == d.recordedImage && s.installed == d.owner.key && s != h))
  }

  /** The state a deployment converges from: its owner, key and image are recorded. */
  function Ready(h: Host, d: Deployment): Host {
    Versioned(Keyed(Claimed(h, d), d), d)
  }

  lemma ConvergeKeepsRecords(h: Host, d: Deployment, budget: nat)
    ensures var s := AfterConverge(h, d, budget);
            && s.recorded == h.recorded && s.installed == h.installed && s.image == h.image
            && (h.project.Some? ==> s.project == h.project)
            && (s.project != h.project ==> s.project == Some(if h.shipped then LEGACY else d.project))
            && (s.shipped && s.project.None? ==> h.shipped)
            && (h.shipped && !s.shipped ==> s.project.Some?)
            && (s.started == h.started
                || (s.project.Some? && s.started == h.started + [Container(Resolved(s), d.image, d.owner.key)]))
  {
  }

  lemma StoppedStates(h: Host, d: Deployment, cut: nat)
    ensures var s := After(h, d, cut);
      s == h || (Admitted(h, d) && (
        || s == Claimed(h, d)
        || s == Keyed(Claimed(h, d), d)
        || (VersionAllowed(h, d) && cut >= 3 && s == AfterConverge(Ready(h, d), d, cut - 3))))
  {
    hide Admitted, AfterConverge;
  }

  /** Every stop of a deployment: the owner record is its own or untouched, a project once pinned is
      left alone, and a start comes after the version record. */
  lemma StopKeepsRecords(h: Host, d: Deployment, cut: nat)
    ensures Redeployed(h, d, After(h, d, cut))
  {
    StoppedStates(h, d, cut);
    if cut >= 3 {
      ConvergeKeepsRecords(Ready(h, d), d, cut - 3);
    }
    hide After, AfterConverge, Resolved;
  }

  lemma FirstMove(h: Host, moves: Moves) returns (next: Host, rest: Moves)
    requires moves != []
    ensures rest == moves[1..] && next == After(h, moves[0].0, moves[0].1)
    ensures Run(h, moves) == Run(next, rest)
    ensures Redeployed(h, moves[0].0, next)
    ensures moves[0] in moves && forall m :: m in rest ==> m in moves
  {
    hide After, Redeployed;
    StopKeepsRecords(h, moves[0].0, moves[0].1);
    next, rest := After(h, moves[0].0, moves[0].1), moves[1..];
  }

  lemma PrefixOfRest(moves: Moves, k: nat)
    requires k < |moves|
    ensures moves[..k + 1] != [] && moves[..k + 1][0] == moves[0] && moves[..k + 1][1..] == moves[1..][..k]
  {
  }

  // Projects: nothing is asked of the deployments.

  /** Fresh directories are settled, and so is one deployed by an older binary: its containers run
      under the project that resolves. */
  predicate Settled(h: Host) {
    && (h.project.None? && h.started != [] ==> h.shipped)
    && (forall c :: c in h.started ==> c.project == Resolved(h))
  }

  lemma StopKeepsSettled(h: Host, d: Deployment, s: Host)
    requires Settled(h) && Redeployed(h, d, s)
    ensures Settled(s)
  {
    hide Admitted, VersionAllowed;
  }

  /** At every stop, a directory's containers all run under the project that resolves. */
  lemma {:induction false} DirectoryStaysSettled(h: Host, moves: Moves)
    requires Settled(h)
    ensures Settled(Run(h, moves))
    decreases |moves|
  {
    if moves != [] {
      hide Settled, After, Redeployed;
      var next, rest := FirstMove(h, moves);
      StopKeepsSettled(h, moves[0].0, next);
      DirectoryStaysSettled(next, rest);
    }
  }

  /** Containers are only ever added, each is addressed by every later command, and the name once
      pinned is the name. */
  lemma EveryContainerStaysReachable(h: Host, moves: Moves)
    requires Settled(h)
    ensures var later := Run(h, moves);
            && h.started <= later.started
            && (forall c :: c in later.started ==> c.project == Resolved(later))
            && (h.project.Some? ==> later.project == h.project)
  {
    DirectoryStaysSettled(h, moves);
    PinnedStays(h, moves);
    var starts := StartsOnlyGrow(h, moves);
    hide Run, Resolved;
  }

  /** The deployment an older binary's own bundle makes next: its key, its pins, and a derived name. */
  lemma UnfinishedSwapIsOrphaned(h: Host, d: Deployment)
    requires h.project.None? && !h.shipped && h.started != []
    requires forall c :: c in h.started ==> c.project == Resolved(h)
    requires Admitted(h, d) && VersionAllowed(h, d) && d.ships && d.project != LEGACY
    ensures Resolved(After(h, d, 8)) == d.project
    ensures h.started <= After(h, d, 8).started
    ensures forall c :: c in h.started ==> c.project != Resolved(After(h, d, 8))
  {
    hide Admitted, VersionAllowed;
    AllowedAgain(h, d);
  }

  lemma AllowedAgain(h: Host, d: Deployment)
    ensures VersionAllowed(h, d) <==> VersionAllowed(Keyed(Claimed(h, d), d), d)
  {
  }

  /** A deployment every directory admits: its owner's key, an upgrade, and a name of its own. */
  function Upgrade(h: Host): Deployment {
    var owner := StateOwner(if OwnerOf(h).Known() then OwnerOf(h).key else "key", "");
    Deployment(owner, owner, "image", "image", LEGACY + "-new", true, true)
  }

  ghost predicate NeverOrphans(h: Host) {
    forall moves: Moves, c :: c in Run(h, moves).started ==> c.project == Resolved(Run(h, moves))
  }

  /** Every container a directory has ever started stays the one later commands address, whatever is
      deployed there and wherever it stops, exactly when the directory is settled: its containers run
      under the project that resolves, and if it has containers it has a project record or its files. */
  lemma NeverOrphansExactly(h: Host)
    ensures NeverOrphans(h) <==> Settled(h)
  {
    if Settled(h) {
      forall moves: Moves, c | c in Run(h, moves).started ensures c.project == Resolved(Run(h, moves)) {
        DirectoryStaysSettled(h, moves);
      }
    } else if c :| c in h.started && c.project != Resolved(h) {
      assert Run(h, []) == h;
    } else {
      var d := Upgrade(h);
      assert d.project != LEGACY by {
        assert |d.project| != |LEGACY|;
      }
      UnfinishedSwapIsOrphaned(h, d);
      var moves := [(d, 8)];
      assert moves[1..] == [] && Run(After(h, d, 8), []) == After(h, d, 8);
      assert Run(h, moves) == After(h, d, 8);
      assert h.started[0] in Run(h, moves).started;
    }
  }

  lemma {:induction false} PinnedStays(h: Host, moves: Moves)
    ensures h.project.Some? ==> Run(h, moves).project == h.project
    decreases |moves|
  {
    if moves != [] {
      hide After, Resolved, Admitted, VersionAllowed;
      var next, rest := FirstMove(h, moves);
      PinnedStays(next, rest);
    }
  }

  /** Shipped files beside no project record are a deployment an older binary made. */
  lemma {:induction false} UnrecordedFilesAreLegacy(h: Host, moves: Moves)
    ensures var now := Run(h, moves);
            now.shipped && now.project.None? ==> h.shipped && h.project.None?
    decreases |moves|
  {
    if moves != [] {
      hide After, Resolved, Admitted, VersionAllowed;
      var next, rest := FirstMove(h, moves);
      UnrecordedFilesAreLegacy(next, rest);
    }
  }

  /** `later` holds every start of `h`, in order, and then `starts`. */
  predicate Extends(h: Host, later: Host, starts: seq<Container>) {
    later.started == h.started + starts
  }

  lemma ExtendsChain(a: Host, b: Host, c: Host, x: seq<Container>, y: seq<Container>)
    requires Extends(a, b, x) && Extends(b, c, y)
    ensures Extends(a, c, x + y)
  {
  }

  lemma FirstStarts(h: Host, d: Deployment, next: Host) returns (starts: seq<Container>)
    requires Redeployed(h, d, next)
    ensures Extends(h, next, starts)
    ensures starts == [] || (|starts| == 1 && starts[0].image == d.image && next.image == d.recordedImage)
  {
    hide Resolved, Admitted, VersionAllowed;
    starts := next.started[|h.started|..];
  }

  lemma {:induction false} StartsOnlyGrow(h: Host, moves: Moves) returns (starts: seq<Container>)
    ensures Extends(h, Run(h, moves), starts)
    decreases |moves|
  {
    if moves == [] {
      return [];
    }
    hide After, Redeployed, Extends;
    var next, rest := FirstMove(h, moves);
    var first := FirstStarts(h, moves[0].0, next);
    var others := StartsOnlyGrow(next, rest);
    ExtendsChain(h, next, Run(next, rest), first, others);
    return first + others;
  }

  // Owners.

  /** What an admitted deployment leaves as the owner: what its record reads as, or, where that
      names nobody, the installed key. */
  lemma ClaimReadsAs(h: Host, d: Deployment, cut: nat)
    requires Admitted(h, d) && cut > 0
    ensures OwnerOf(After(h, d, cut)).key ==
            if d.recordedOwner.Known() then d.recordedOwner.key else if cut == 1 then h.installed else d.owner.key
  {
    StoppedStates(h, d, cut);
    if cut >= 3 {
      ConvergeKeepsRecords(Ready(h, d), d, cut - 3);
    }
    hide AfterConverge;
  }

  /** The guard of one deployment: it is refused or stopped before its claim, or its owner record
      names its key, or names nobody while the installed key does. */
  predicate Harmless(h: Host, d: Deployment, cut: nat) {
    || d.owner.key != OwnerOf(h).key
    || cut == 0
    || OwnerReadsBack(d)
    || (!d.recordedOwner.Known() && (cut > 1 || h.installed == d.owner.key))
  }

  /** An owned directory keeps its owner through a deployment exactly when that is harmless. */
  lemma OwnerKeptExactly(h: Host, d: Deployment, cut: nat)
    requires OwnerOf(h).Known()
    ensures OwnerOf(After(h, d, cut)).key == OwnerOf(h).key <==> Harmless(h, d, cut)
  {
    if Admitted(h, d) && cut > 0 {
      ClaimReadsAs(h, d, cut);
    } else {
      NothingWritten(h, d, cut);
    }
    hide After;
  }

  lemma NothingWritten(h: Host, d: Deployment, cut: nat)
    ensures !Admitted(h, d) || cut == 0 ==> After(h, d, cut) == h
  {
  }

  ghost predicate OwnerStays(h: Host, moves: Moves) {
    forall k :: 0 <= k <= |moves| ==> OwnerOf(Run(h, moves[..k])).key == OwnerOf(h).key
  }

  predicate AllHarmless(h: Host, moves: Moves)
    decreases |moves|
  {
    moves == [] || (Harmless(h, moves[0].0, moves[0].1)
                    && AllHarmless(After(h, moves[0].0, moves[0].1), moves[1..]))
  }

  /** Over every run of deployments by any bundles, an owned directory has one owner throughout
      exactly when each deployment in turn is harmless. */
  lemma {:induction false} OwnerStaysExactly(h: Host, moves: Moves)
    requires OwnerOf(h).Known()
    ensures OwnerStays(h, moves) <==> AllHarmless(h, moves)
    decreases |moves|
  {
    hide OwnerOf, After, Harmless;
    if moves != [] {
      var next := After(h, moves[0].0, moves[0].1);
      OwnerKeptExactly(h, moves[0].0, moves[0].1);
      OwnerStaysStep(h, moves, next);
      if OwnerOf(next).key == OwnerOf(h).key {
        OwnerStaysExactly(next, moves[1..]);
      }
    }
  }

  lemma OwnerStaysStep(h: Host, moves: Moves, next: Host)
    requires moves != [] && next == After(h, moves[0].0, moves[0].1)
    ensures OwnerStays(h, moves) <==> OwnerOf(next).key == OwnerOf(h).key && OwnerStays(next, moves[1..])
  {
    hide OwnerOf, After;
    assert forall k :: 0 <= k < |moves| ==> Run(h, moves[..k + 1]) == Run(next, moves[1..][..k]) by {
      forall k | 0 <= k < |moves| ensures Run(h, moves[..k + 1]) == Run(next, moves[1..][..k]) {
        PrefixOfRest(moves, k);
      }
    }
    if OwnerStays(h, moves) {
      assert Run(h, moves[..1]) == Run(next, moves[1..][..0]);
      forall k | 0 <= k <= |moves| - 1 ensures OwnerOf(Run(next, moves[1..][..k])).key == OwnerOf(next).key {
        assert OwnerOf(Run(h, moves[..k + 1])).key == OwnerOf(h).key;
      }
    }
    if OwnerOf(next).key == OwnerOf(h).key && OwnerStays(next, moves[1..]) {
      forall k | 0 <= k <= |moves| ensures OwnerOf(Run(h, moves[..k])).key == OwnerOf(h).key {
        if k > 0 {
          assert OwnerOf(Run(next, moves[1..][..k - 1])).key == OwnerOf(next).key;
        }
      }
    }
  }

  predicate OwnersReadBack(moves: Moves) {
    forall m :: m in moves ==> OwnerReadsBack(m.0)
  }

  lemma {:induction false} OwnerNeverChanges(h: Host, moves: Moves)
    requires OwnersReadBack(moves) && OwnerOf(h).Known()
    ensures OwnerOf(Run(h, moves)).key == OwnerOf(h).key
    decreases |moves|
  {
    if moves != [] {
      hide OwnerOf, After, Redeployed;
      var next, rest := FirstMove(h, moves);
      OwnerKeptExactly(h, moves[0].0, moves[0].1);
      OwnerNeverChanges(next, rest);
    }
  }

  /** An owned directory admits exactly the deployments with its owner's host key, whatever their
      domain and whatever ran before, and any other deployment writes nothing. */
  lemma AdmitsItsOwnerExactly(h: Host, moves: Moves, d: Deployment, cut: nat)
    requires OwnersReadBack(moves) && OwnerOf(h).Known()
    ensures var now := Run(h, moves);
            && (Admitted(now, d) <==> d.owner.key == OwnerOf(h).key)
            && (d.owner.key != OwnerOf(h).key ==> After(now, d, cut) == now)
  {
    hide OwnerOf, After, Run;
    OwnerNeverChanges(h, moves);
    NothingWritten(Run(h, moves), d, cut);
  }

  /** A record that reads as another key is how an instance loses its directory: its own next
      deployment is refused. */
  lemma MisreadClaimLocksOut(h: Host, d: Deployment, cut: nat)
    requires Admitted(h, d) && cut > 0 && d.recordedOwner.Known() && !OwnerReadsBack(d)
    ensures !Admitted(After(h, d, cut), d)
    ensures OwnerOf(After(h, d, cut)).key == d.recordedOwner.key
  {
    ClaimReadsAs(h, d, cut);
    hide After;
  }

  /** Every container and the installed host key are the owner's. */
  predicate OneInstance(h: Host) {
    && (forall c :: c in h.started ==> c.key != "" && c.key == OwnerOf(h).key)
    && (h.installed != "" ==> h.installed == OwnerOf(h).key)
  }

  lemma StopKeepsOneInstance(h: Host, d: Deployment, s: Host)
    requires OneInstance(h) && Redeployed(h, d, s) && OwnerReadsBack(d)
    ensures OneInstance(s)
  {
    hide VersionAllowed;
    if s != h {
      assert OwnerOf(s).key == d.owner.key != "";
      forall c | c in h.started ensures c.key == d.owner.key {
        assert OwnerOf(h).Known();
      }
    }
  }

  /** Over every run, the containers started from a directory are all of one instance, its owner. */
  lemma {:induction false} DirectoryStaysOneInstance(h: Host, moves: Moves)
    requires OneInstance(h) && OwnersReadBack(moves)
    ensures OneInstance(Run(h, moves))
    decreases |moves|
  {
    if moves != [] {
      hide OneInstance, After, Redeployed;
      var next, rest := FirstMove(h, moves);
      StopKeepsOneInstance(h, moves[0].0, next);
      DirectoryStaysOneInstance(next, rest);
    }
  }

  /** From a fresh directory, so everything above holds of every run there is. */
  lemma EveryRunFromFresh(moves: Moves)
    ensures Settled(Run(FRESH, moves))
    ensures OwnersReadBack(moves) ==> OneInstance(Run(FRESH, moves))
    ensures Run(FRESH, moves).shipped ==> Run(FRESH, moves).project.Some?
  {
    DirectoryStaysSettled(FRESH, moves);
    UnrecordedFilesAreLegacy(FRESH, moves);
    if OwnersReadBack(moves) {
      DirectoryStaysOneInstance(FRESH, moves);
    }
    hide Run;
  }

  // Versions.

  /** The containers started between two states. */
  function NewlyStarted(h: Host, later: Host): seq<Container>
    requires h.started <= later.started
  {
    later.started[|h.started|..]
  }

  /** The recorded image after every move, the start included. */
  ghost predicate RecordStays(h: Host, moves: Moves, image: string) {
    forall k :: 0 <= k <= |moves| ==> Run(h, moves[..k]).image == image
  }

  lemma RecordStaysAfter(h: Host, moves: Moves, image: string)
    requires moves != [] && RecordStays(h, moves, image)
    ensures var next := After(h, moves[0].0, moves[0].1);
            RecordStays(next, moves[1..], image) && next.image == image
  {
    hide After;
    var next := After(h, moves[0].0, moves[0].1);
    forall k | 0 <= k <= |moves| - 1 ensures Run(next, moves[1..][..k]).image == image {
      assert Run(h, moves[..k + 1]).image == image;
      PrefixOfRest(moves, k);
    }
    assert Run(next, moves[1..][..0]).image == image;
  }

  predicate ImagesReadBack(moves: Moves) {
    forall m :: m in moves ==> ImageReadsBack(m.0)
  }

  lemma {:induction false} StartsUnderOneRecord(h: Host, moves: Moves, image: string) returns (starts: seq<Container>)
    requires ImagesReadBack(moves) && RecordStays(h, moves, image)
    ensures Extends(h, Run(h, moves), starts)
    ensures forall c :: c in starts ==> c.image == image
    decreases |moves|
  {
    if moves == [] {
      return [];
    }
    hide After, Redeployed, Extends, RecordStays;
    RecordStaysAfter(h, moves, image);
    var next, rest := FirstMove(h, moves);
    var first := FirstStarts(h, moves[0].0, next);
    var others := StartsUnderOneRecord(next, rest, image);
    ExtendsChain(h, next, Run(next, rest), first, others);
    return first + others;
  }

  /** While the record keeps one value, no other image is started. */
  lemma RecordNamesWhatStarted(h: Host, moves: Moves, image: string)
    requires ImagesReadBack(moves) && RecordStays(h, moves, image)
    ensures h.started <= Run(h, moves).started
    ensures forall c :: c in NewlyStarted(h, Run(h, moves)) ==> c.image == image
  {
    var starts := StartsUnderOneRecord(h, moves, image);
    hide Run, RecordStays, ImagesReadBack;
  }

  /** A start leaves the record naming the image started exactly when that image reads back. */
  lemma StartIsRecordedExactly(h: Host, d: Deployment, cut: nat)
    requires After(h, d, cut).started != h.started
    ensures After(h, d, cut).started != []
    ensures After(h, d, cut).image == Last(After(h, d, cut).started).image <==> ImageReadsBack(d)
  {
    StopKeepsRecords(h, d, cut);
    hide After, Admitted, VersionAllowed, Resolved;
  }

  predicate NoneMigrates(moves: Moves) {
    forall m :: m in moves ==> !m.0.migrate
  }

  /** A recorded image, pinned again, reads as itself: true of whatever a record can read as. */
  predicate Stable(image: string, moves: Moves) {
    forall m :: m in moves && m.0.image == image ==> m.0.recordedImage == image
  }

  lemma {:induction false} ImageStays(h: Host, moves: Moves) returns (starts: seq<Container>)
    requires Stable(h.image, moves) && NoneMigrates(moves) && h.image != ""
    ensures Run(h, moves).image == h.image
    ensures Extends(h, Run(h, moves), starts)
    ensures forall c :: c in starts ==> c.image == h.image
    decreases |moves|
  {
    if moves == [] {
      return [];
    }
    hide After, Extends, Run;
    var next, rest := FirstMove(h, moves);
    var first := FirstStarts(h, moves[0].0, next);
    AllowedIsRecorded(h, moves[0].0, moves[0].1, first);
    var others := ImageStays(next, rest);
    ExtendsChain(h, next, Run(next, rest), first, others);
    return first + others;
  }

  lemma AllowedIsRecorded(h: Host, d: Deployment, cut: nat, starts: seq<Container>)
    requires h.image != "" && !d.migrate && (d.image == h.image ==> d.recordedImage == h.image)
    requires Extends(h, After(h, d, cut), starts)
    ensures After(h, d, cut).image == h.image
    ensures forall c :: c in starts ==> c.image == h.image
  {
    StoppedStates(h, d, cut);
    if cut >= 3 {
      ConvergeKeepsRecords(Ready(h, d), d, cut - 3);
    }
    hide After, AfterConverge, Resolved, Admitted;
    assert starts == After(h, d, cut).started[|h.started|..];
  }

  /** An image that was started may be started again without an upgrade exactly when its record
      reads as it, or as nothing. */
  lemma RestartAllowedExactly(h: Host, d: Deployment, cut: nat)
    requires After(h, d, cut).started != h.started && !d.migrate
    ensures var now := After(h, d, cut).image;
            (now == "" || now == d.image) <==> ImageReadsBack(d) || d.recordedImage == ""
  {
    StopKeepsRecords(h, d, cut);
    hide After, Admitted, Resolved;
  }

  /** Only an upgrade changes the recorded image: without one every start is of that image. */
  lemma OnlyMigrationChangesTheImage(h: Host, moves: Moves)
    requires Stable(h.image, moves) && NoneMigrates(moves) && h.image != ""
    ensures Run(h, moves).image == h.image
    ensures h.started <= Run(h, moves).started
    ensures forall c :: c in NewlyStarted(h, Run(h, moves)) ==> c.image == h.image
  {
    var starts := ImageStays(h, moves);
    hide Run, Stable, NoneMigrates;
  }

  predicate OneImage(h: Host) {
    forall c :: c in h.started ==> c.image != "" && c.image == h.image
  }

  lemma OneImageStays(h: Host, d: Deployment, next: Host)
    requires OneImage(h) && Redeployed(h, d, next) && !d.migrate && ImageReadsBack(d) && d.image != ""
    ensures OneImage(next)
  {
    hide Resolved, Admitted;
    if h.started != [] {
      assert h.started[0] in h.started;
    }
  }

  /** From a fresh directory, all starts without an upgrade are of one image, the recorded one. */
  lemma {:induction false} OneImageWithoutMigration(h: Host, moves: Moves)
    requires ImagesReadBack(moves) && (forall m :: m in moves ==> m.0.image != "")
    requires NoneMigrates(moves) && OneImage(h)
    ensures OneImage(Run(h, moves))
    decreases |moves|
  {
    if moves != [] {
      hide After, Redeployed, OneImage;
      var next, rest := FirstMove(h, moves);
      OneImageStays(h, moves[0].0, next);
      OneImageWithoutMigration(next, rest);
    }
  }

  // Completion.

  /** After any interrupted deployments, a deployment given enough writes starts the forge exactly
      when it carries the owner's key, its image is allowed, and it has something to ship. */
  lemma RedeployStartsExactly(h: Host, moves: Moves, d: Deployment)
    requires OwnersReadBack(moves) && OwnerOf(h).Known()
    ensures var now := Run(h, moves);
            After(now, d, 8).started != now.started
            <==> d.owner.key == OwnerOf(h).key && (d.migrate || now.image == "" || now.image == d.image) && d.ships
  {
    hide *;
    AdmitsItsOwnerExactly(h, moves, d, 8);
    CompletesExactly(Run(h, moves), d);
    AllowedMeans(Run(h, moves), d);
  }

  lemma AllowedMeans(h: Host, d: Deployment)
    ensures VersionAllowed(h, d) <==> d.migrate || h.image == "" || h.image == d.image
  {
  }

  /** Whose state `h` is, spelled out: the recorded key, or without one the installed key. */
  lemma AdmittedMeans(h: Host, d: Deployment)
    ensures Admitted(h, d) <==>
            var owner := if h.recorded.key != "" then h.recorded.key else h.installed;
            d.owner.key != "" && (owner == "" || owner == d.owner.key)
  {
  }

  /** All a deployment allowed to finish does, read off the two states: a stranger changes nothing, an
      image that is neither recorded nor an upgrade stops it behind the owner and the key, and otherwise
      owner, key, image and project are recorded and its container is started under that project. */
  lemma FinishedState(h: Host, d: Deployment, cut: nat)
    requires cut >= 8
    ensures var owner := if h.recorded.key != "" then h.recorded.key else h.installed;
            var project := if h.project.Some? then h.project.value else if h.shipped then "farrier" else d.project;
            var admitted := d.owner.key != "" && (owner == "" || owner == d.owner.key);
            var allowed := d.migrate || h.image == "" || h.image == d.image;
            After(h, d, cut) ==
            if !admitted then h
            else if !allowed then Host(d.recordedOwner, d.owner.key, h.image, h.project, h.shipped, h.started)
            else if !d.ships then
              Host(d.recordedOwner, d.owner.key, d.recordedImage, h.project, h.shipped, h.started)
            else
              Host(d.recordedOwner, d.owner.key, d.recordedImage, Some(project), true,
                   h.started + [Container(project, d.image, d.owner.key)])
  {
    AdmittedMeans(h, d);
    hide Admitted;
  }

  /** An upgrade is never held up by the image recorded before it: given its writes it ends with its own
      recorded and its container started. */
  lemma UpgradeCompletes(h: Host, moves: Moves, d: Deployment, cut: nat)
    requires OwnersReadBack(moves) && OwnerOf(h).Known()
    requires d.owner.key == OwnerOf(h).key && d.migrate && d.ships && cut >= 8
    ensures var now, later := Run(h, moves), After(Run(h, moves), d, cut);
            && later.image == d.recordedImage && later.shipped && later.project.Some?
            && later.started == now.started + [Container(later.project.value, d.image, d.owner.key)]
  {
    hide After, Run, OwnerOf;
    AdmitsItsOwnerExactly(h, moves, d, cut);
    AdmittedMeans(Run(h, moves), d);
    FinishedState(Run(h, moves), d, cut);
  }

  /** A directory without files or a project record pins the name of one of its own deployments. */
  lemma {:induction false} PinsItsOwnName(h: Host, moves: Moves) returns (pinned: set<string>)
    requires h.project.None? && !h.shipped
    ensures pinned == set m | m in moves :: m.0.project
    ensures var now := Run(h, moves);
            if now.project.Some? then now.project.value in pinned else !now.shipped
    decreases |moves|
  {
    pinned := set m | m in moves :: m.0.project;
    if moves != [] {
      hide After, Resolved, Admitted, VersionAllowed;
      var next, rest := FirstMove(h, moves);
      if next.project.None? {
        var others := PinsItsOwnName(next, rest);
        assert others <= pinned;
      } else {
        PinnedStays(next, rest);
        assert next.project.value == moves[0].0.project;
      }
    }
  }

  lemma CompletesExactly(h: Host, d: Deployment)
    ensures After(h, d, 8).started != h.started
            <==> Admitted(h, d) && VersionAllowed(h, d) && d.ships
  {
    hide Admitted, Resolved;
  }
}
