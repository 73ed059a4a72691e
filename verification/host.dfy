/**
 `up` as code that changes a host directory, whose records are text files
 (internal/core/deploy/stateowner.go, stateversion.go, deploy.go; internal/core/orchestrate).
 Each phase takes how many writes are left before the run stops and gives back what remains, or
 None when it stopped or refused.
 */
module HostFiles {
  import opened Prelude
  import opened Text
  import opened HostState
  import opened HostTheorems
  import opened OwnerRecord
  import opened ProjectName
  import opened StagedInstall

  /** One invocation of `up`: the bundle's public host key, domain and forge image, the rendered
      Compose files, the digest for a project name, and whether it is the migration path. */
  datatype Options = Options(
    hostKeyPublic: string, domain: string, image: string, compose: Files, digest: Digest, migrate: bool)

  function Mine(o: Options): StateOwner {
    StateOwner(Normalize(o.hostKeyPublic), TrimSpace(o.domain))
  }

  /** What a shell substitutes for a command's output: trailing newlines go. */
  function Substituted(s: string): string {
    if s != "" && Last(s) == '\n' then Substituted(s[..|s| - 1]) else s
  }

  function DeploymentOf(o: Options): Deployment {
    Deployment(Mine(o), Parsed(Record(Mine(o))), o.image, TrimSpace(o.image + "\n"),
               Substituted(Derived(TrimSpace(o.domain), o.digest) + "\n"), o.compose != map[], o.migrate)
  }

  /** A deployment's records read back as written exactly when its domain is a single line, as
      every operation that puts a name on a bundle checks, and its image a trimmed name. */
  lemma WellFormedExactly(o: Options)
    ensures DeploymentOf(o).recordedOwner == DeploymentOf(o).owner <==> '\n' !in TrimSpace(o.domain)
    ensures ImageReadsBack(DeploymentOf(o)) <==> Trimmed(o.image)
  {
    NormalizeIsIdempotent(o.hostKeyPublic);
    RecordReadsBackExactly(Mine(o));
    LineReadsBackExactly(o.image);
    hide Parsed, Record, Normalize, TrimSpace, Derived, Substituted;
  }

  /** The owner's key reads back exactly when no later line of the domain gives another key. */
  lemma OwnerReadsBackExactly(o: Options)
    ensures OwnerReadsBack(DeploymentOf(o)) <==>
            LastKey(Split(TrimSpace(o.domain), '\n')[1..]) in {None, Some(Mine(o).key)}
  {
    NormalizeIsIdempotent(o.hostKeyPublic);
    RecordedKeyExactly(Mine(o));
    hide Parsed, Record, Normalize, TrimSpace, Derived, Substituted, LastKey, Split;
  }

  /** What a version record reads as always reads back. */
  lemma RecordedImageIsStable(version: string, o: Options)
    requires o.image == TrimSpace(version)
    ensures DeploymentOf(o).recordedImage == o.image
  {
    LineReadsBackExactly(o.image);
    hide Parsed, Record, Normalize, TrimSpace, Derived, Substituted;
  }

  /** A manifest edited by hand: the domain goes on on a second line in the owner record's own form.
      Its deployment hands the directory to the key named there, and its next one is refused. */
  lemma HandEditedDomainLocksOut(h: Host, o: Options, domain: string, other: string, cut: nat)
    requires Admitted(h, DeploymentOf(o)) && cut > 0
    requires TrimSpace(o.domain) == domain + "\n" + KEY_FIELD + ": " + other
    requires '\n' !in domain && '\n' !in other && Normalize(other) !in {"", Mine(o).key}
    ensures var d := DeploymentOf(o);
            OwnerOf(After(h, d, cut)).key == Normalize(other) && !Admitted(After(h, d, cut), d)
  {
    hide Parsed, Record, Normalize, TrimSpace, Derived, Substituted, KEY_FIELD, After, Admitted;
    NormalizeIsIdempotent(o.hostKeyPublic);
    SecondLineNamesAnother(Mine(o).key, domain, other);
    MisreadClaimLocksOut(h, DeploymentOf(o), cut);
  }

  lemma LineReadsBackExactly(s: string)
    ensures TrimSpace(s + "\n") == s <==> Trimmed(s)
  {
    if Trimmed(s) {
      LineReadsBack(s);
    }
    hide TrimSpace;
  }

  lemma LineReadsBack(s: string)
    requires Trimmed(s)
    ensures TrimSpace(s + "\n") == s
  {
    var line := s + "\n";
    assert Last(line) == '\n' && line[..|line| - 1] == s;
    if s == "" {
      assert line[1..] == "";
    } else {
      assert TrimLeft(line) == line;
      assert TrimRight(line) == TrimRight(s) == s;
    }
  }

  /** A name pinned by a deployment is the name commands resolve, derived or legacy. */
  lemma PinReadsBack(o: Options)
    ensures DeploymentOf(o).project == Derived(TrimSpace(o.domain), o.digest)
    ensures Substituted(LEGACY + "\n") == LEGACY
  {
    hide Derived, TrimSpace, Substituted, Normalize, Parsed, Record;
    DerivedIsAccepted(TrimSpace(o.domain), o.digest);
    TidyReadsBack(Derived(TrimSpace(o.domain), o.digest));
    assert Tidy(LEGACY);
    TidyReadsBack(LEGACY);
  }

  /** The deployments of one directory, in order, each with the writes it gets to make. */
  function Deployments(runs: seq<(Options, nat)>): (moves: Moves)
    ensures |moves| == |runs|
    ensures forall i :: 0 <= i < |runs| ==> moves[i] == (DeploymentOf(runs[i].0), runs[i].1)
  {
    seq(|runs|, i requires 0 <= i < |runs| => (DeploymentOf(runs[i].0), runs[i].1))
  }

  /** From fresh, a project record names a slug and a digest of one of the directory's own deployments,
      and until there is one nothing was started. */
  lemma OwnProject(runs: seq<(Options, nat)>) returns (i: nat)
    requires Run(FRESH, Deployments(runs)).project.Some?
    ensures i < |runs|
    ensures Resolved(Run(FRESH, Deployments(runs))) == Derived(TrimSpace(runs[i].0.domain), runs[i].0.digest)
  {
    var moves := Deployments(runs);
    hide Run, Derived, TrimSpace, Substituted, Normalize, Parsed, Record, Deployments;
    var names := PinsItsOwnName(FRESH, moves);
    var name := Run(FRESH, moves).project.value;
    var m :| m in moves && m.0.project == name;
    i :| 0 <= i < |moves| && moves[i] == m;
    PinReadsBack(runs[i].0);
  }

  /** Two directories of one host whose deployments never share a digest never share a project once one
      of them has converged, whatever their domains: no container of one is addressed from the other. */
  lemma DirectoriesStayApart(here: seq<(Options, nat)>, there: seq<(Options, nat)>)
    requires forall i, j :: 0 <= i < |here| && 0 <= j < |there| ==> here[i].0.digest != there[j].0.digest
    requires Run(FRESH, Deployments(here)).project.Some?
    ensures var mine, theirs := Run(FRESH, Deployments(here)), Run(FRESH, Deployments(there));
            && Resolved(mine) != Resolved(theirs)
            && (forall c :: c in mine.started ==> c.project != Resolved(theirs))
            && (forall c :: c in theirs.started ==> c.project != Resolved(mine))
  {
    hide Run, Derived, TrimSpace, Deployments;
    var mine, theirs := Run(FRESH, Deployments(here)), Run(FRESH, Deployments(there));
    EveryRunFromFresh(Deployments(here));
    EveryRunFromFresh(Deployments(there));
    var i := OwnProject(here);
    var x := here[i].0;
    if theirs.project.Some? {
      var j := OwnProject(there);
      DerivedIsUnique(TrimSpace(x.domain), x.digest, TrimSpace(there[j].0.domain), there[j].0.digest);
    } else {
      DerivedIsAccepted(TrimSpace(x.domain), x.digest);
    }
  }

  lemma TidyReadsBack(name: string)
    requires Tidy(name)
    ensures Substituted(name + "\n") == name
  {
    var line := name + "\n";
    assert Last(line) == '\n' && line[..|line| - 1] == name;
    assert name != "" ==> Last(name) != '\n';
  }

  lemma NothingReadsAsFresh()
    ensures Parsed("") == UNKNOWN && Normalize("") == "" && TrimSpace("") == ""
  {
    SplitWhole("", '\n');
  }

  /** An older binary stopped between removing compose/ and renaming the new one: its containers run
      under the legacy name, nothing says so, and the next deployment of its own bundle pins another. */
  lemma UnfinishedLegacySwapOrphans(h: Host, o: Options)
    requires h.project.None? && !h.shipped && h.started != []
    requires forall c :: c in h.started ==> c.project == LEGACY
    requires Admitted(h, DeploymentOf(o)) && VersionAllowed(h, DeploymentOf(o)) && o.compose != map[]
    ensures var later := After(h, DeploymentOf(o), 8);
            Resolved(later) == Derived(TrimSpace(o.domain), o.digest) != LEGACY
            && forall c :: c in h.started ==> c in later.started && c.project != Resolved(later)
  {
    hide Parsed, Record, Normalize, TrimSpace, Derived, Substituted, After, Admitted, VersionAllowed;
    PinReadsBack(o);
    DerivedIsAccepted(TrimSpace(o.domain), o.digest);
    UnfinishedSwapIsOrphaned(h, DeploymentOf(o));
  }

  lemma NoSwapYet(history: seq<Disk>, was: Option<Files>, files: Files)
    ensures SwapsFrom(history, |history|, |history|, was, SwapUpTo(was, files, [], 0))
  {
  }

  lemma StagedIsNoSwap(before: seq<Disk>, staged: seq<Disk>, was: Option<Files>, files: Files)
    requires before <= staged && forall d :: d in staged[|before|..] ==> d.installed == was
    ensures SwapsFrom(staged, |before|, |staged|, was, SwapUpTo(was, files, [], 0))
  {
    forall i | |before| <= i < |staged| ensures staged[i].installed == was {
      assert staged[i] in staged[|before|..];
    }
  }

  lemma SwapContinues(before: seq<Disk>, staged: seq<Disk>, history: seq<Disk>, swap: nat, was: Option<Files>)
    requires before <= staged <= history && |staged| <= swap <= |history|
    requires forall d :: d in staged[|before|..] ==> d.installed == was
    requires forall i :: |staged| <= i < swap ==> history[i].installed == was
    ensures forall i :: |before| <= i < swap ==> history[i].installed == was
  {
    forall i | |before| <= i < |staged| ensures history[i].installed == was {
      assert staged[i] in staged[|before|..] && history[i] == staged[i];
    }
  }

  class HostDirectory {
    var ownerRecord: string
    var installedKey: string
    var version: string
    var project: string
    const compose: ComposeFolder
    var started: seq<Container>

    constructor ()
      ensures fresh(compose) && compose.Now() == Disk(None, None)
      ensures View() == FRESH
    {
      hide Normalize, TrimSpace, Parsed, Substituted;
      NothingReadsAsFresh();
      ownerRecord, installedKey, version, project, started := "", "", "", "", [];
      compose := new ComposeFolder();
    }

    /** An absent file reads as empty, and an empty project record as absent. */
    function View(): Host
      reads this, compose
    {
      Host(Parsed(ownerRecord), Normalize(installedKey), TrimSpace(version),
           if project == "" then None else Some(Substituted(project)), compose.installed.Some?, started)
    }

    method ReadStateOwner() returns (owner: StateOwner)
      ensures owner == OwnerOf(View())
    {
      owner := Parse(ownerRecord);
      if !owner.Known() {
        owner := StateOwner(Normalize(installedKey), "");
      }
    }

    method CheckStateOwner(o: Options, budget: nat) returns (left: Option<nat>)
      modifies this
      ensures left == if Admitted(old(View()), DeploymentOf(o)) && budget > 0 then Some(budget - 1) else None
      ensures left.None? ==> unchanged(this)
      ensures left.Some? ==> ownerRecord == Record(Mine(o))
      ensures installedKey == old(installedKey) && version == old(version) && project == old(project)
      ensures started == old(started)
      ensures View() == if left.Some? then Claimed(old(View()), DeploymentOf(o)) else old(View())
    {
      hide Normalize, TrimSpace, Parsed, Record, Substituted, Derived;
      var mine := Mine(o);
      if mine.key == "" {
        return None;
      }
      var found := ReadStateOwner();
      if (found.Known() && !found.SameInstance(mine)) || budget == 0 {
        return None;
      }
      ownerRecord := Record(mine);
      return Some(budget - 1);
    }

    method ConfigureSSHHostKey(o: Options, budget: nat) returns (left: Option<nat>)
      modifies this
      ensures left == if budget > 0 then Some(budget - 1) else None
      ensures installedKey == if left.Some? then o.hostKeyPublic else old(installedKey)
      ensures ownerRecord == old(ownerRecord) && version == old(version) && project == old(project)
      ensures View() == if left.Some? then Keyed(old(View()), DeploymentOf(o)) else old(View())
    {
      hide Normalize, TrimSpace, Parsed, Record, Substituted, Derived;
      if budget == 0 {
        return None;
      }
      installedKey := o.hostKeyPublic;
      return Some(budget - 1);
    }

    method CheckStateVersion(o: Options, budget: nat) returns (left: Option<nat>)
      modifies this
      ensures var recorded := TrimSpace(old(version));
              left == if (o.migrate || recorded == "" || recorded == o.image) && budget > 0
                      then Some(budget - 1) else None
      ensures version == if left.Some? then o.image + "\n" else old(version)
      ensures ownerRecord == old(ownerRecord) && installedKey == old(installedKey) && project == old(project)
      ensures View() == if left.Some? then Versioned(old(View()), DeploymentOf(o)) else old(View())
    {
      hide Normalize, TrimSpace, Parsed, Record, Substituted, Derived;
      var recorded := TrimSpace(version);
      if !o.migrate && recorded != "" && recorded != o.image {
        return None;
      }
      if budget == 0 {
        return None;
      }
      version := o.image + "\n";
      return Some(budget - 1);
    }

    method PinProjectName(o: Options, budget: nat) returns (left: Option<nat>)
      modifies this
      ensures left == Spend(budget, if old(View()).project.Some? then 0 else 2)
      ensures View() == if left.Some? then Pinned(old(View()), DeploymentOf(o)) else old(View())
      ensures left.Some? ==> project != ""
      ensures ownerRecord == old(ownerRecord) && installedKey == old(installedKey) && version == old(version)
    {
      PinReadsBack(o);
      hide Normalize, TrimSpace, Parsed, Record, Substituted, Derived;
      if project != "" {
        return Some(budget);
      }
      var name := if compose.installed.Some? then LEGACY else Derived(TrimSpace(o.domain), o.digest);
      if budget == 0 {
        return None;
      }
      project := "";
      if budget == 1 {
        return None;
      }
      project := name + "\n";
      return Some(budget - 2);
    }

    /** Ship the files into the empty staging directory and swap it in: two writes. */
    method ShipAndSwap(o: Options, budget: nat) returns (left: Option<nat>, ghost swap: nat, ghost order: seq<string>)
      requires compose.staging == Some(map[])
      modifies compose
      ensures left == Spend(budget, 2)
      ensures compose.installed.Some? == if budget == 0 then old(compose.installed).Some? else budget > 1
      ensures left.Some? ==> compose.Now() == Disk(Some(o.compose), None)
      ensures old(compose.history) <= compose.history
      ensures old(compose.installed).Some? && budget > 0 ==> Lists(order, old(compose.installed).value)
      ensures SwapsFrom(compose.history, |old(compose.history)|, swap, old(compose.installed),
                        SwapUpTo(old(compose.installed), o.compose, order, budget))
    {
      hide Removal, Lists;
      compose.Ship(o.compose);
      swap, order := |compose.history|, [];
      ghost var shipped := compose.history;
      forall i | |old(compose.history)| <= i < swap ensures shipped[i].installed == old(compose.installed) {
        assert shipped[i] in shipped[|old(compose.history)|..];
      }
      if budget == 0 {
        return None, swap, order;
      }
      order := compose.RemoveInstalled();
      assert compose.history[..swap] == shipped;
      if budget == 1 {
        assert compose.history[swap..] == SwapUpTo(old(compose.installed), o.compose, order, 1);
        return None, swap, order;
      }
      compose.Install();
      assert compose.history[..swap] == shipped;
      assert compose.history[swap..] == Swap(old(compose.installed), o.compose, order);
      return Some(budget - 2), swap, order;
    }

    /** How many of the swap's writes a run with `budget` to go gets to make. */
    ghost function SwapWrites(o: Options, budget: nat): nat
      reads this
    {
      var left := Spend(budget, if project == "" then 2 else 0);
      if o.compose == map[] || left.None? then 0 else left.value
    }

    /** Stage, pin, ship, swap, start. Where it completes, the Compose directory is exactly the
        deployment's files; up to `swap` in its history it is the old one, and from there on the states
        are those of the swap. */
    method Converge(o: Options, budget: nat) returns (done: bool, ghost swap: nat, ghost order: seq<string>)
      modifies this, compose
      ensures View() == AfterConverge(old(View()), DeploymentOf(o), budget)
      ensures done <==> o.compose != map[] && budget >= if old(View()).project.Some? then 3 else 5
      ensures done ==> compose.Now() == Disk(Some(o.compose), None)
      ensures ownerRecord == old(ownerRecord) && installedKey == old(installedKey) && version == old(version)
      ensures started == if done then old(started) + [Container(Substituted(project), o.image, Mine(o).key)]
                         else old(started)
      ensures old(compose.history) <= compose.history
      ensures old(compose.installed).Some? && old(SwapWrites(o, budget)) > 0 ==>
                Lists(order, old(compose.installed).value)
      ensures SwapsFrom(compose.history, |old(compose.history)|, swap, old(compose.installed),
                        SwapUpTo(old(compose.installed), o.compose, order, old(SwapWrites(o, budget))))
    {
      hide Normalize, TrimSpace, Parsed, Record, Substituted, Derived, SwapUpTo, Lists;
      swap, order := |compose.history|, [];
      NoSwapYet(compose.history, compose.installed, o.compose);
      if o.compose == map[] {
        return false, swap, order;
      }
      compose.Prepare();
      ghost var staged := compose.history;
      StagedIsNoSwap(old(compose.history), staged, old(compose.installed), o.compose);
      swap := |staged|;
      var left := PinProjectName(o, budget);
      if left.None? {
        return false, swap, order;
      }
      left, swap, order := ShipAndSwap(o, left.value);
      SwapContinues(old(compose.history), staged, compose.history, swap, old(compose.installed));
      if left.None? || left.value == 0 {
        return false, swap, order;
      }
      var name := if project == "" then LEGACY else Substituted(project);
      started := started + [Container(name, o.image, Normalize(o.hostKeyPublic))];
      return true, swap, order;
    }

    method Up(o: Options, cut: nat) returns (done: bool)
      modifies this, compose
      ensures View() == After(old(View()), DeploymentOf(o), cut)
      ensures done <==> o.compose != map[] && Admitted(old(View()), DeploymentOf(o))
                        && (o.migrate || TrimSpace(old(version)) == "" || TrimSpace(old(version)) == o.image)
                        && cut >= if old(View()).project.Some? then 6 else 8
      ensures done ==> compose.Now() == Disk(Some(o.compose), None)
      ensures done ==>
                && ownerRecord == Record(Mine(o)) && installedKey == o.hostKeyPublic && version == o.image + "\n"
                && started == old(started) + [Container(Substituted(project), o.image, Mine(o).key)]
      ensures !Admitted(old(View()), DeploymentOf(o)) ==> unchanged(this) && unchanged(compose)
    {
      hide Normalize, TrimSpace, Parsed, Record, Substituted, Derived, AfterConverge;
      var left := CheckStateOwner(o, cut);
      if left.None? {
        return false;
      }
      left := ConfigureSSHHostKey(o, left.value);
      if left.None? {
        return false;
      }
      left := CheckStateVersion(o, left.value);
      if left.None? {
        return false;
      }
      ghost var swap, order;
      done, swap, order := Converge(o, left.value);
    }
  }
}
