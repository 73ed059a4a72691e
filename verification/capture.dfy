/**
 What a backup captures while pushes arrive: database and refs under the hold, objects after it
 (internal/core/backup/backup.go, capture.go, pushhold.go).

 `arrivals(k)` are the pushes that reach the forge before the run's k-th step; whether they land
 is the hold's doing.
 */
module PushHoldCapture {
  import opened Prelude

  /** A git object by content: what it links to is part of what it is. */
  datatype Object = Object(content: string, links: seq<Object>)

  function Closure(o: Object): set<Object> {
    {o} + ClosureOf(o.links)
  }

  function ClosureOf(objects: seq<Object>): set<Object> {
    if objects == [] then {} else Closure(objects[0]) + ClosureOf(objects[1..])
  }

  type Refs = map<string, Object>

  datatype Repository = Repository(objects: set<Object>, refs: Refs)

  predicate Connected(r: Repository) {
    forall n :: n in r.refs ==> Closure(r.refs[n]) <= r.objects
  }

  /** The database has a row for each repository and knows its branches. */
  datatype Database = Database(branches: map<string, Refs>)

  datatype Forge = Forge(repos: map<string, Repository>, db: Database)

  /** New objects, and what the refs become: created, moved or deleted. */
  datatype Push = Push(repo: string, objects: set<Object>, refs: Refs)

  function Objects(f: Forge, repo: string): set<Object> {
    if repo in f.repos then f.repos[repo].objects else {}
  }

  function Updated(f: Forge, p: Push): Repository {
    Repository(Objects(f, p.repo) + p.objects, p.refs)
  }

  /** A push that would leave a ref without its objects is refused. */
  predicate Lands(f: Forge, p: Push) {
    Connected(Updated(f, p))
  }

  /** A push adds objects and moves refs. */
  function Landed(f: Forge, p: Push): Forge {
    var updated := Updated(f, p);
    if Lands(f, p) then Forge(f.repos[p.repo := updated], Database(f.db.branches[p.repo := p.refs])) else f
  }

  function RefsOf(f: Forge): map<string, Refs> {
    map r | r in f.repos :: f.repos[r].refs
  }

  ghost predicate Sound(f: Forge) {
    && (forall r :: r in f.repos ==> Connected(f.repos[r]))
    && f.db.branches == RefsOf(f)
  }

  ghost predicate Grown(f: Forge, g: Forge) {
    forall r :: r in f.repos ==> r in g.repos && f.repos[r].objects <= g.repos[r].objects
  }

  lemma GrownIsOrder(f: Forge, g: Forge, h: Forge)
    ensures Grown(f, f)
    ensures Grown(f, g) && Grown(g, h) ==> Grown(f, h)
  {
  }

  lemma LandedKeepsSound(f: Forge, p: Push)
    requires Sound(f)
    ensures Sound(Landed(f, p)) && Grown(f, Landed(f, p))
  {
    hide Closure;
  }

  function LandedAll(f: Forge, pushes: seq<Push>): Forge
    decreases |pushes|
  {
    if pushes == [] then f else LandedAll(Landed(f, pushes[0]), pushes[1..])
  }

  lemma {:induction false} LandedAllConcat(f: Forge, a: seq<Push>, b: seq<Push>)
    ensures LandedAll(f, a + b) == LandedAll(LandedAll(f, a), b)
    decreases |a|
  {
    hide Landed;
    if a == [] {
      assert a + b == b;
    } else {
      assert (a + b)[1..] == a[1..] + b && (a + b)[0] == a[0];
      LandedAllConcat(Landed(f, a[0]), a[1..], b);
    }
  }

  lemma LandedOneMore(f: Forge, pushes: seq<Push>, i: nat)
    requires i < |pushes|
    ensures LandedAll(f, pushes[..i + 1]) == Landed(LandedAll(f, pushes[..i]), pushes[i])
  {
    hide Landed;
    assert pushes[..i + 1] == pushes[..i] + [pushes[i]];
    LandedAllConcat(f, pushes[..i], [pushes[i]]);
    assert [pushes[i]][1..] == [];
    var before := LandedAll(f, pushes[..i]);
    assert LandedAll(before, [pushes[i]]) == LandedAll(Landed(before, pushes[i]), []);
  }

  /** A forge as pushes reach it; `history` is every state it has been in. */
  class LiveForge {
    var now: Forge
    var held: bool
    ghost var history: seq<Forge>

    constructor (start: Forge)
      requires Sound(start)
      ensures Valid() && now == start && !held
    {
      now, held, history := start, false, [start];
    }

    ghost predicate Valid()
      reads this
    {
      Sound(now) && history != [] && Last(history) == now
    }

    method Receive(pushes: seq<Push>)
      requires Valid()
      modifies this`now, this`history
      ensures Valid() && Grown(old(now), now)
      ensures now == if held then old(now) else LandedAll(old(now), pushes)
      ensures held ==> history == old(history)
      ensures old(history) <= history
    {
      hide Landed, Sound, Grown;
      GrownIsOrder(now, now, now);
      for i := 0 to |pushes|
        invariant Valid() && Grown(old(now), now) && old(history) <= history
        invariant now == if held then old(now) else LandedAll(old(now), pushes[..i])
        invariant held ==> history == old(history)
      {
        if !held {
          LandedKeepsSound(now, pushes[i]);
          GrownIsOrder(old(now), now, Landed(now, pushes[i]));
          LandedOneMore(old(now), pushes, i);
          now := Landed(now, pushes[i]);
          history := history + [now];
        }
      }
      assert pushes[..|pushes|] == pushes;
    }

    method Engage()
      modifies this`held
      ensures held
    {
      held := true;
    }

    method Release()
      modifies this`held
      ensures !held
    {
      held := false;
    }
  }

  method Enumerate(names: set<string>) returns (order: seq<string>)
    ensures Distinct(order) && forall n :: n in order <==> n in names
  {
    order := [];
    var rest := names;
    while rest != {}
      invariant Distinct(order) && rest !! set n | n in order
      invariant forall n :: n in names <==> n in order || n in rest
      decreases |rest|
    {
      var n :| n in rest;
      rest, order := rest - {n}, order + [n];
    }
  }

  datatype Captured = Captured(db: Database, refs: map<string, Refs>, archives: map<string, set<Object>>)

  /** Everything below the recorded refs is on the forge. */
  predicate Covered(f: Forge, refs: map<string, Refs>) {
    forall r :: r in refs ==> Connected(Repository(Objects(f, r), refs[r]))
  }

  /** The archives taken so far hold everything below their recorded refs, and nothing foreign. */
  predicate Archived(f: Forge, refs: map<string, Refs>, archives: map<string, set<Object>>) {
    forall r :: r in archives ==>
      r in refs && Connected(Repository(archives[r], refs[r])) && archives[r] <= Objects(f, r)
  }

  lemma GrowthKeeps(f: Forge, g: Forge, refs: map<string, Refs>, archives: map<string, set<Object>>)
    requires Grown(f, g)
    ensures Covered(f, refs) ==> Covered(g, refs)
    ensures Archived(f, refs, archives) ==> Archived(g, refs, archives)
  {
    hide Closure;
    if Covered(f, refs) {
      forall r | r in refs ensures Connected(Repository(Objects(g, r), refs[r])) {
        MoreIsConnected(Objects(f, r), Objects(g, r), refs[r]);
      }
    }
  }

  lemma MoreIsConnected(objects: set<Object>, more: set<Object>, refs: Refs)
    requires objects <= more && Connected(Repository(objects, refs))
    ensures Connected(Repository(more, refs))
  {
    hide Closure;
  }

  /** The forge after the arrivals before its first `i` steps. */
  function Through(f: Forge, arrivals: nat -> seq<Push>, i: nat): Forge {
    if i == 0 then f else LandedAll(Through(f, arrivals, i - 1), arrivals(i - 1))
  }

  /** The first `i` repositories' refs, each as it was when it was reached. */
  ghost predicate TakenInTurn(f: Forge, remotes: seq<string>, arrivals: nat -> seq<Push>, i: nat,
                              refs: map<string, Refs>)
    requires i <= |remotes|
  {
    && (forall r :: r in refs <==> r in remotes[..i])
    && (forall j :: 0 <= j < i ==>
          remotes[j] in refs && remotes[j] in RefsOf(Through(f, arrivals, j + 1))
          && refs[remotes[j]] == RefsOf(Through(f, arrivals, j + 1))[remotes[j]])
  }

  lemma TakeNext(f: Forge, remotes: seq<string>, arrivals: nat -> seq<Push>, i: nat, refs: map<string, Refs>)
    requires i < |remotes| && Distinct(remotes) && TakenInTurn(f, remotes, arrivals, i, refs)
    requires remotes[i] in Through(f, arrivals, i + 1).repos
    ensures TakenInTurn(f, remotes, arrivals, i + 1,
                        refs[remotes[i] := Through(f, arrivals, i + 1).repos[remotes[i]].refs])
  {
    hide Through;
    assert remotes[..i + 1] == remotes[..i] + [remotes[i]];
  }

  lemma RefsStayCovered(f: Forge, g: Forge, refs: map<string, Refs>, repo: string)
    requires Covered(f, refs) && Grown(f, g) && Sound(g) && repo in g.repos
    ensures Covered(g, refs[repo := g.repos[repo].refs])
  {
    hide Connected;
    GrowthKeeps(f, g, refs, map[]);
  }

  /** captureGitRefs: each repository's refs, as they are when it is reached. */
  method CaptureRefs(live: LiveForge, remotes: seq<string>, arrivals: nat -> seq<Push>)
    returns (refs: map<string, Refs>)
    requires live.Valid() && Distinct(remotes) && forall r :: r in remotes ==> r in live.now.repos
    modifies live`now, live`history
    ensures live.Valid() && Grown(old(live.now), live.now) && old(live.history) <= live.history
    ensures live.held ==> live.now == old(live.now) && live.history == old(live.history)
    ensures forall r :: r in refs <==> r in remotes
    ensures Covered(live.now, refs)
    ensures live.held ==> forall r :: r in refs ==> refs[r] == live.now.repos[r].refs
    ensures !live.held ==> TakenInTurn(old(live.now), remotes, arrivals, |remotes|, refs)
  {
    hide Covered, Sound, TakenInTurn, Distinct, LandedAll;
    refs := map[];
    GrownIsOrder(live.now, live.now, live.now);
    NothingTaken(live.now, remotes, arrivals);
    for i := 0 to |remotes|
      invariant live.Valid() && Grown(old(live.now), live.now) && old(live.history) <= live.history
      invariant live.held ==> live.now == old(live.now) && live.history == old(live.history)
      invariant !live.held ==> live.now == Through(old(live.now), arrivals, i)
      invariant forall r :: r in refs <==> r in remotes[..i]
      invariant Covered(live.now, refs)
      invariant live.held ==> forall r :: r in refs ==> refs[r] == live.now.repos[r].refs
      invariant !live.held ==> TakenInTurn(old(live.now), remotes, arrivals, i, refs)
    {
      ghost var before := live.now;
      live.Receive(arrivals(i));
      GrownIsOrder(old(live.now), before, live.now);
      assert remotes[i] in old(live.now).repos;
      RefsStayCovered(before, live.now, refs, remotes[i]);
      if !live.held {
        TakeNext(old(live.now), remotes, arrivals, i, refs);
      }
      refs := refs[remotes[i] := live.now.repos[remotes[i]].refs];
      assert remotes[..i + 1] == remotes[..i] + [remotes[i]];
    }
    assert remotes[..|remotes|] == remotes;
  }

  lemma NothingTaken(f: Forge, remotes: seq<string>, arrivals: nat -> seq<Push>)
    ensures TakenInTurn(f, remotes, arrivals, 0, map[]) && Covered(f, map[]) && Through(f, arrivals, 0) == f
  {
  }

  /** captureOneRepo: an archive holds everything that was there when it was opened, and of what
      arrives meanwhile whatever was caught. */
  method CaptureOne(live: LiveForge, repo: string, refs: Refs, before: seq<Push>, meanwhile: seq<Push>,
                    caught: set<Object>)
    returns (archive: set<Object>)
    requires live.Valid() && repo in live.now.repos && Connected(Repository(Objects(live.now, repo), refs))
    modifies live`now, live`history
    ensures live.Valid() && Grown(old(live.now), live.now) && old(live.history) <= live.history
    ensures Connected(Repository(archive, refs)) && archive <= Objects(live.now, repo)
  {
    hide Connected, Sound;
    ghost var start := Objects(live.now, repo);
    live.Receive(before);
    var present := live.now.repos[repo].objects;
    live.Receive(meanwhile);
    archive := present + (caught * live.now.repos[repo].objects);
    MoreIsConnected(start, archive, refs);
  }

  method CaptureObjects(live: LiveForge, remotes: seq<string>, refs: map<string, Refs>, arrivals: nat -> seq<Push>,
                        caught: string -> set<Object>) returns (archives: map<string, set<Object>>)
    requires live.Valid() && forall r :: r in remotes ==> r in live.now.repos
    requires forall r :: r in refs <==> r in remotes
    requires Covered(live.now, refs)
    modifies live`now, live`history
    ensures live.Valid() && old(live.history) <= live.history
    ensures archives.Keys == refs.Keys && Archived(live.now, refs, archives)
  {
    hide Covered, Sound, Archived, Connected;
    archives := map[];
    GrownIsOrder(live.now, live.now, live.now);
    NothingArchived(live.now, refs);
    for i := 0 to |remotes|
      invariant live.Valid() && Grown(old(live.now), live.now) && old(live.history) <= live.history
      invariant forall r :: r in archives <==> r in remotes[..i]
      invariant Covered(live.now, refs) && Archived(live.now, refs, archives)
    {
      var repo := remotes[i];
      assert repo in old(live.now).repos;
      ghost var before := live.now;
      CoveredAt(live.now, refs, repo);
      var archive := CaptureOne(live, repo, refs[repo], arrivals(2 * i), arrivals(2 * i + 1), caught(repo));
      GrowthKeeps(before, live.now, refs, archives);
      GrownIsOrder(old(live.now), before, live.now);
      ArchiveAdded(live.now, refs, archives, repo, archive);
      archives := archives[repo := archive];
      assert remotes[..i + 1] == remotes[..i] + [repo];
    }
    assert remotes[..|remotes|] == remotes;
  }

  lemma NothingArchived(f: Forge, refs: map<string, Refs>)
    ensures Archived(f, refs, map[])
  {
  }

  lemma CoveredAt(f: Forge, refs: map<string, Refs>, repo: string)
    requires Covered(f, refs) && repo in refs
    ensures Connected(Repository(Objects(f, repo), refs[repo]))
  {
    hide Connected;
  }

  lemma ArchiveAdded(f: Forge, refs: map<string, Refs>, archives: map<string, set<Object>>, repo: string,
                     archive: set<Object>)
    requires Archived(f, refs, archives) && repo in refs
    requires Connected(Repository(archive, refs[repo])) && archive <= Objects(f, repo)
    ensures Archived(f, refs, archives[repo := archive])
  {
    hide Connected;
  }

  /** The refs the last of the pushes to a repository that lands leaves there. */
  function Settles(f: Forge, pushes: seq<Push>, repo: string): Option<Refs>
    decreases |pushes|
  {
    if pushes == [] then None
    else
      var later := Settles(Landed(f, pushes[0]), pushes[1..], repo);
      if later.Some? then later
      else if pushes[0].repo == repo && Lands(f, pushes[0]) then Some(pushes[0].refs)
      else None
  }

  lemma {:induction false} SettledRefs(f: Forge, pushes: seq<Push>, repo: string)
    ensures var g, last := LandedAll(f, pushes), Settles(f, pushes, repo);
            && (repo in g.repos <==> repo in f.repos || last.Some?)
            && (repo in g.repos ==> g.repos[repo].refs == if last.Some? then last.value else f.repos[repo].refs)
    decreases |pushes|
  {
    if pushes != [] {
      LandedAt(f, pushes[0], repo);
      hide Landed, Lands;
      SettledRefs(Landed(f, pushes[0]), pushes[1..], repo);
    }
  }

  lemma LandedAt(f: Forge, p: Push, repo: string)
    ensures var g := Landed(f, p);
            && (repo in g.repos <==> repo in f.repos || (p.repo == repo && Lands(f, p)))
            && (repo in g.repos ==>
                  g.repos[repo].refs == if p.repo == repo && Lands(f, p) then p.refs else f.repos[repo].refs)
  {
    hide Connected;
  }

  /** The pushes that reach the forge between the database and the refs of the `i`-th repository. */
  function Between(listing: seq<Push>, arrivals: nat -> seq<Push>, i: nat): seq<Push> {
    if i == 0 then listing else Between(listing, arrivals, i - 1) + arrivals(i - 1)
  }

  lemma {:induction false} ThroughBetween(f: Forge, listing: seq<Push>, arrivals: nat -> seq<Push>, i: nat)
    ensures Through(LandedAll(f, listing), arrivals, i) == LandedAll(f, Between(listing, arrivals, i))
  {
    hide LandedAll;
    if i > 0 {
      ThroughBetween(f, listing, arrivals, i - 1);
      LandedAllConcat(f, Between(listing, arrivals, i - 1), arrivals(i - 1));
    }
  }

  /** No repository appears before they are listed, and of the pushes to each that land between the
      database and its refs the last leaves its refs as they were. */
  ghost predicate Undisturbed(f: Forge, listing: seq<Push>, order: seq<string>, arrivals: nat -> seq<Push>) {
    && (forall r :: Settles(f, listing, r).Some? ==> r in f.repos)
    && (forall i :: 0 <= i < |order| && order[i] in f.repos ==>
          Settles(f, Between(listing, arrivals, i + 1), order[i]) in {None, Some(f.repos[order[i]].refs)})
  }

  lemma TakenAt(f: Forge, listing: seq<Push>, order: seq<string>, arrivals: nat -> seq<Push>,
                refs: map<string, Refs>, i: nat)
    requires TakenInTurn(LandedAll(f, listing), order, arrivals, |order|, refs) && i < |order|
    ensures order[i] in refs
    ensures order[i] in f.repos ==>
              (refs[order[i]] == f.repos[order[i]].refs <==>
               Settles(f, Between(listing, arrivals, i + 1), order[i]) in {None, Some(f.repos[order[i]].refs)})
  {
    hide LandedAll, Settles, Through, Between;
    ThroughBetween(f, listing, arrivals, i + 1);
    SettledRefs(f, Between(listing, arrivals, i + 1), order[i]);
  }

  lemma SameRepositories(f: Forge, listing: seq<Push>, order: seq<string>, refs: map<string, Refs>)
    requires forall r :: r in order <==> r in LandedAll(f, listing).repos
    requires forall r :: r in refs <==> r in order
    ensures refs.Keys == f.repos.Keys <==> forall r :: Settles(f, listing, r).Some? ==> r in f.repos
    ensures forall r :: r in f.repos ==> r in order
  {
    forall r ensures r in order <==> r in f.repos || Settles(f, listing, r).Some? {
      SettledRefs(f, listing, r);
    }
    hide LandedAll, Settles;
  }

  /** Without a hold the captured database and refs agree exactly when nothing disturbed them. */
  lemma UnheldAgreesExactly(f: Forge, listing: seq<Push>, order: seq<string>, arrivals: nat -> seq<Push>,
                            refs: map<string, Refs>)
    requires Sound(f)
    requires forall r :: r in order <==> r in LandedAll(f, listing).repos
    requires TakenInTurn(LandedAll(f, listing), order, arrivals, |order|, refs)
    ensures f.db.branches == refs <==> Undisturbed(f, listing, order, arrivals)
  {
    assert order[..|order|] == order;
    assert f.db.branches == RefsOf(f) && RefsOf(f).Keys == f.repos.Keys;
    assert forall r :: r in refs <==> r in order;
    SameRepositories(f, listing, order, refs);
    forall i | 0 <= i < |order|
      ensures order[i] in f.repos ==>
                (refs[order[i]] == f.repos[order[i]].refs <==>
                 Settles(f, Between(listing, arrivals, i + 1), order[i]) in {None, Some(f.repos[order[i]].refs)})
    {
      TakenAt(f, listing, order, arrivals, refs, i);
    }
    hide LandedAll, Settles, Between, TakenInTurn, Sound;
    if refs.Keys == f.repos.Keys {
      SameMaps(f, order, refs);
    }
  }

  lemma SameMaps(f: Forge, order: seq<string>, refs: map<string, Refs>)
    requires refs.Keys == f.repos.Keys && forall r :: r in refs <==> r in order
    ensures RefsOf(f) == refs <==> forall i :: 0 <= i < |order| ==> refs[order[i]] == f.repos[order[i]].refs
  {
    if forall i :: 0 <= i < |order| ==> refs[order[i]] == f.repos[order[i]].refs {
      forall r | r in refs ensures RefsOf(f)[r] == refs[r] {
        var i :| 0 <= i < |order| && order[i] == r;
      }
    }
    if RefsOf(f) == refs {
      forall i | 0 <= i < |order| ensures refs[order[i]] == f.repos[order[i]].refs {
        assert refs[order[i]] == RefsOf(f)[order[i]];
      }
    }
  }

  /** Every recorded ref's objects are in that repository's archive whatever arrives and when, and
      even where nothing is held. Under a hold, database and refs are those of one instant; without
      one they agree exactly when nothing disturbed them. */
  method Capture(live: LiveForge, hold: bool, arrivals: nat -> seq<Push>, duringRefs: nat -> seq<Push>,
                 duringObjects: nat -> seq<Push>, caught: string -> set<Object>)
    returns (c: Captured, ghost order: seq<string>)
    requires live.Valid() && !live.held
    modifies live
    ensures live.Valid() && !live.held && old(live.history) <= live.history
    ensures c.archives.Keys == c.refs.Keys
    ensures forall r, n :: r in c.refs && n in c.refs[r] ==> Closure(c.refs[r][n]) <= c.archives[r]
    ensures forall r :: r in c.refs ==> c.archives[r] <= Objects(live.now, r)
    ensures hold ==> exists f :: f in live.history && c.db == f.db && c.refs == RefsOf(f)
    ensures hold ==> c.db.branches == c.refs
    ensures Distinct(order) && forall r :: r in order <==> r in c.refs
    ensures !hold ==>
              var f := LandedAll(LandedAll(old(live.now), arrivals(0)), arrivals(1));
              c.db.branches == c.refs <==> Undisturbed(f, arrivals(2), order, duringRefs)
  {
    hide Sound, Grown, Covered, Connected, LandedAll, TakenInTurn, Distinct, Undisturbed, Closure, Archived;
    live.Receive(arrivals(0));
    if hold {
      live.Engage();
    }
    live.Receive(arrivals(1));
    ghost var snapshot := live.now;
    var db := live.now.db;
    live.Receive(arrivals(2));
    var remotes := Enumerate(live.now.repos.Keys);
    order := remotes;
    ghost var listed := live.now;
    var refs := CaptureRefs(live, remotes, duringRefs);
    if !hold {
      UnheldAgreesExactly(snapshot, arrivals(2), remotes, duringRefs, refs);
    }
    ghost var recorded := live.now;
    live.Receive(arrivals(3));
    GrowthKeeps(recorded, live.now, refs, map[]);
    ghost var held := live.now;
    RemainListed(listed, recorded, held);
    if hold {
      HeldAgrees(held, refs);
      assert held in live.history;
      live.Release();
    }
    ghost var seen := live.history;
    var archives := CaptureObjects(live, remotes, refs, duringObjects, caught);
    c := Captured(db, refs, archives);
    EveryClosureIsArchived(live.now, refs, archives);
    if hold {
      assert held in seen && held in live.history;
    }
  }

  lemma RemainListed(f: Forge, g: Forge, h: Forge)
    requires Grown(f, g) && Grown(g, h)
    ensures forall r :: r in f.repos ==> r in h.repos
  {
  }

  lemma HeldAgrees(f: Forge, refs: map<string, Refs>)
    requires Sound(f) && refs.Keys == f.repos.Keys && forall r :: r in refs ==> refs[r] == f.repos[r].refs
    ensures refs == RefsOf(f) && f.db.branches == refs
  {
    hide Connected;
  }

  lemma EveryClosureIsArchived(f: Forge, refs: map<string, Refs>, archives: map<string, set<Object>>)
    requires Archived(f, refs, archives) && archives.Keys == refs.Keys
    ensures forall r, n :: r in refs && n in refs[r] ==> Closure(refs[r][n]) <= archives[r]
    ensures forall r :: r in refs ==> archives[r] <= Objects(f, r)
  {
    hide Closure, Objects;
    forall r, n | r in refs && n in refs[r] ensures Closure(refs[r][n]) <= archives[r] {
      assert Connected(Repository(archives[r], refs[r]));
    }
  }

  // What the order and the hold are for.

  lemma {:induction false} LinksAreInClosure(o: Object, x: Object, l: Object)
    requires x in Closure(o) && l in x.links
    ensures l in Closure(o)
    decreases o, 0
  {
    if x == o {
      HeadsAreInClosure(o.links, l);
    } else {
      LinksAreInClosureOf(o.links, x, l);
    }
  }

  lemma {:induction false} LinksAreInClosureOf(objects: seq<Object>, x: Object, l: Object)
    requires x in ClosureOf(objects) && l in x.links
    ensures l in ClosureOf(objects)
    decreases objects, 1
  {
    if x in Closure(objects[0]) {
      LinksAreInClosure(objects[0], x, l);
    } else {
      LinksAreInClosureOf(objects[1..], x, l);
    }
  }

  lemma {:induction false} HeadsAreInClosure(objects: seq<Object>, l: Object)
    requires l in objects
    ensures l in ClosureOf(objects)
    decreases |objects|
  {
    if l != objects[0] {
      HeadsAreInClosure(objects[1..], l);
    }
  }

  /** A connected repository has no dangling link anywhere below a ref. */
  lemma ConnectedHasNoDanglingLink(r: Repository, n: string, x: Object, l: Object)
    requires Connected(r) && n in r.refs && x in Closure(r.refs[n]) && l in x.links
    ensures x in r.objects && l in r.objects
  {
    LinksAreInClosure(r.refs[n], x, l);
  }

  /** Pushes between the database and refs taken at one instant make the two disagree exactly when the
      last that lands on some repository changes its refs, or creates it. */
  lemma TornExactly(f: Forge, pushes: seq<Push>)
    requires Sound(f)
    ensures f.db.branches != RefsOf(LandedAll(f, pushes)) <==>
            exists r :: Settles(f, pushes, r).Some?
                        && (r in f.repos ==> Settles(f, pushes, r) != Some(f.repos[r].refs))
  {
    hide LandedAll, Settles, Landed, Connected;
    var g := LandedAll(f, pushes);
    forall r
      ensures r in g.repos <==> r in f.repos || Settles(f, pushes, r).Some?
      ensures r in g.repos ==> g.repos[r].refs == if Settles(f, pushes, r).Some? then Settles(f, pushes, r).value
                                                  else f.repos[r].refs
    {
      SettledRefs(f, pushes, r);
    }
    if r :| Settles(f, pushes, r).Some? && (r in f.repos ==> Settles(f, pushes, r) != Some(f.repos[r].refs)) {
      assert r in RefsOf(g) && RefsOf(g)[r] == Settles(f, pushes, r).value;
    } else {
      assert RefsOf(g) == RefsOf(f);
    }
  }

  /** The content lengths below an object bound those of everything it links to. */
  ghost function Bound(objects: set<Object>): (n: nat)
    ensures forall o :: o in objects ==> |o.content| <= n
  {
    if objects == {} then 0
    else
      var o: Object :| o in objects;
      |o.content| + Bound(objects - {o})
  }

  /** Why refs come before objects: in any state of the forge and for any repository there is a push
      such that an archive taken before it and refs recorded after it do not fit together. */
  lemma ObjectsFirstMisses(f: Forge, repo: string)
    requires Sound(f)
    ensures exists p: Push :: p.repo == repo && Lands(f, p)
                        && !Connected(Repository(Objects(f, repo), RefsOf(Landed(f, p))[repo]))
  {
    var present := Objects(f, repo);
    var o := Object(seq(Bound(present) + 1, _ => 'x'), []);
    var p := Push(repo, {o}, map["main" := o]);
    assert o !in present;
    assert Closure(o) == {o} by {
      assert ClosureOf([]) == {};
    }
    assert Lands(f, p);
    var missing := Repository(present, map["main" := o]);
    assert !(Closure(missing.refs["main"]) <= missing.objects);
    assert RefsOf(Landed(f, p))[repo] == p.refs;
  }
}
