/**
 What a host directory says, and what each deployment makes of it: whose state it is, which
 Forgejo image opened it, which Compose project its containers belong to
 (internal/core/deploy/stateowner.go, stateversion.go, deploy.go; internal/core/orchestrate).

 A run performs its writes in order and may stop before any of them: `cut` is how many it gets
 to perform.
 */
module HostState {
  import opened Prelude

  /** An empty key means unknown, never "no instance". */
  datatype StateOwner = StateOwner(key: string, domain: string) {
    predicate Known() {
      key != ""
    }

    predicate SameInstance(other: StateOwner) {
      Known() && other.Known() && key == other.key
    }
  }

  /** The project of every deployment made before projects were recorded. */
  const LEGACY := "farrier"

  datatype Container = Container(project: string, image: string, key: string)

  /** What the directory's files read as: the owner record, the installed host key, the version
      record, the project record, whether Compose files were shipped; and every start of the
      forge from it, in order. */
  datatype Host = Host(
    recorded: StateOwner, installed: string, image: string, project: Option<string>, shipped: bool,
    started: seq<Container>)

  /** What one deployment brings, and what each record it writes will read as. */
  datatype Deployment = Deployment(
    owner: StateOwner, recordedOwner: StateOwner, image: string, recordedImage: string,
    project: string, ships: bool, migrate: bool)

  const FRESH := Host(StateOwner("", ""), "", "", None, false, [])

  /** The owner record a deployment writes names the key it was written for. */
  predicate OwnerReadsBack(d: Deployment) {
    d.recordedOwner.key == d.owner.key
  }

  /** The version record a deployment writes names the image it starts. */
  predicate ImageReadsBack(d: Deployment) {
    d.recordedImage == d.image
  }

  /** ReadStateOwner: the record, or failing that the installed host key. */
  function OwnerOf(h: Host): StateOwner {
    if h.recorded.Known() then h.recorded else StateOwner(h.installed, "")
  }

  /** The project every Compose command of this directory addresses. */
  function Resolved(h: Host): string {
    if h.project.Some? then h.project.value else LEGACY
  }

  predicate Admitted(h: Host, d: Deployment) {
    d.owner.Known() && (OwnerOf(h).Known() ==> OwnerOf(h).SameInstance(d.owner))
  }

  predicate VersionAllowed(h: Host, d: Deployment) {
    d.migrate || h.image == "" || h.image == d.image
  }

  // What each write does.

  function Claimed(h: Host, d: Deployment): Host {
    h.(recorded := d.recordedOwner)
  }

  function Keyed(h: Host, d: Deployment): Host {
    h.(installed := d.owner.key)
  }

  function Versioned(h: Host, d: Deployment): Host {
    h.(image := d.recordedImage)
  }

  function Pinned(h: Host, d: Deployment): Host {
    if h.project.Some? then h else h.(project := Some(if h.shipped then LEGACY else d.project))
  }

  function Started(h: Host, d: Deployment): Host {
    h.(started := h.started + [Container(Resolved(h), d.image, d.owner.key)])
  }

  /** How many of `budget` writes `wanted` ones leave, or None when they are not all made. */
  function Spend(budget: nat, wanted: nat): Option<nat> {
    if budget < wanted then None else Some(budget - wanted)
  }

  /** Converge from the pin on, with `budget` writes to go. A pin truncates the record and then
      writes it, and a truncated record reads as none. */
  function AfterConverge(h: Host, d: Deployment, budget: nat): Host {
    if !d.ships then h
    else
      var left := Spend(budget, if h.project.Some? then 0 else 2);
      if left.None? then h
      else
        var p := Pinned(h, d);
        if left.value == 0 then p
        else if left.value == 1 then p.(shipped := false)
        else if left.value == 2 then p.(shipped := true)
        else Started(p.(shipped := true), d)
  }

  /** The state `up` leaves. */
  function After(h: Host, d: Deployment, cut: nat): Host {
    if !Admitted(h, d) || cut == 0 then h
    else
      var claimed := Claimed(h, d);
      if cut == 1 then claimed
      else
        var keyed := Keyed(claimed, d);
        if !VersionAllowed(keyed, d) || cut == 2 then keyed
        else AfterConverge(Versioned(keyed, d), d, cut - 3)
  }
}
