/** The promises of `init`, each over every run that starts with nothing stored anywhere. */
module InitTheorems {
  import opened Prelude
  import opened InitRun
  import opened InitProofs
  import opened InitGuard

  /** While no bundle was finished in `p`, every identity key `p` ever stored in the
      target its record names is named by that record, and there is a record. */
  lemma RecordNamesEveryStoredKey(moves: seq<Move>, p: Place, t: Target, k: Key)
    requires var w := Run(NOTHING, moves);
             w.DirOf(p).manifest.None? && (t, k) in w.owner && w.owner[(t, k)] == p
    ensures var d := Run(NOTHING, moves).DirOf(p);
            d.record.Some? && (d.record.value.target == t ==> k in d.record.value.keys)
  {
    NothingIsReachable();
    RunReachable(NOTHING, moves);
    var w := Run(NOTHING, moves);
    assert DirOk(w, p) && k in Present(w.StoreOf(t));
    PresentAreIdentity(w.StoreOf(t));
  }

  lemma PresentAreIdentity(store: Contents)
    ensures Present(store) <= IdentityKeys()
  {
  }

  /** The identity keys present are always a prefix of the store order: a public host
      key without its private half, or with another's, is unreachable. */
  lemma PresentKeysAreAPrefix(moves: seq<Move>, t: Target)
    ensures var store := Run(NOTHING, moves).StoreOf(t);
            PrefixClosed(store, KeyOrder()) && PairMatches(store)
  {
    NothingIsReachable();
    RunReachable(NOTHING, moves);
    assert StoreOk(Run(NOTHING, moves).StoreOf(t));
  }

  ghost predicate HoldsBundleFiles(d: Dir) {
    d.compose.Some? || d.manifest.Some?
  }

  predicate RecordMatches(d: Dir, t: Target) {
    d.record.Some? && d.record.value.target == t
  }

  lemma AdmitsExactly(store: Contents, d: Dir, a: Attempt)
    requires StoreOk(store) && RecordOk(d)
    ensures Admits(store, d, a) <==>
            !HoldsBundleFiles(d) && (Present(store) == {} || RecordMatches(d, a.target))
  {
    PresentAreIdentity(store);
    PairAdmits(store);
    hide StoreOk, IdentityKeys, Present, RepairPair, KeyOrder;
    if RecordMatches(d, a.target) {
      assert Present(store) - Recorded(d, a.target) == {};
    } else {
      assert Present(store) - Recorded(d, a.target) == Present(store);
    }
  }

  lemma PairAdmits(store: Contents)
    requires StoreOk(store)
    ensures RepairPair(store, Present(store)).Ok?
  {
    assert PairMatches(store);
    hide KeyOrder;
  }

  /** Exactly when the next `init` is refused. */
  lemma RefusedExactly(moves: seq<Move>, m: Move)
    ensures var w := Run(NOTHING, moves);
            !Accepts(w, m) <==>
              || HoldsBundleFiles(w.DirOf(m.place))
              || (Present(w.StoreOf(m.attempt.target)) != {} && !RecordMatches(w.DirOf(m.place), m.attempt.target))
  {
    NothingIsReachable();
    RunReachable(NOTHING, moves);
    var w := Run(NOTHING, moves);
    assert StoreOk(w.StoreOf(m.attempt.target)) && DirOk(w, m.place);
    AdmitsExactly(w.StoreOf(m.attempt.target), w.DirOf(m.place), m.attempt);
  }

  /** A run whose calls all succeed finishes: the directory holds a bundle and no record,
      the target all identity keys, each the one that was there or the one generated for that name, the
      host key pair matches and the manifest's copy is it. */
  lemma AcceptedRunFinishes(moves: seq<Move>, m: Move)
    requires Accepts(Run(NOTHING, moves), m) && m.attempt.cut >= 13
    ensures var w := Step(Run(NOTHING, moves), m);
            var d, store := w.DirOf(m.place), w.StoreOf(m.attempt.target);
            && d.record.None? && d.compose == Some(m.attempt.compose)
            && IdentityKeys() <= store.Keys && PairMatches(store) && SSHHostKeyPublic in store
            && d.manifest == Some(Manifest(m.attempt.target, store[SSHHostKeyPublic]))
    ensures var before := Run(NOTHING, moves).StoreOf(m.attempt.target);
            var a, after := m.attempt, Step(Run(NOTHING, moves), m).StoreOf(m.attempt.target);
            && {SecretKey, InternalToken, LFSJWTSecret, RunnerSecret, AgeBackupKey} <= after.Keys
            && {SSHHostKey, SSHHostKeyPublic} <= after.Keys
            && (forall k :: k in before && k != TLSCertificate && k != TLSPrivateKey ==>
                  k in after && after[k] == before[k])
            && (SecretKey in before || after[SecretKey] == Text(a.secretKey))
            && (InternalToken in before || after[InternalToken] == Text(a.internalToken))
            && (LFSJWTSecret in before || after[LFSJWTSecret] == Text(a.lfsSecret))
            && (RunnerSecret in before || after[RunnerSecret] == Text(a.runnerSecret))
            && (AgeBackupKey in before || after[AgeBackupKey] == Text(a.ageKey))
            && (SSHHostKey in before || after[SSHHostKey] == HostKey(a.hostSeed))
            && after[SSHHostKey].HostKey? && after[SSHHostKeyPublic] == HostKeyPublic(after[SSHHostKey].seed)
            && (a.certificate.Some? ==>
                  && TLSCertificate in after && after[TLSCertificate] == Text(a.certificate.value.0)
                  && TLSPrivateKey in after && after[TLSPrivateKey] == Text(a.certificate.value.1))
  {
    hide *;
    NothingIsReachable();
    RunReachable(NOTHING, moves);
    var w := Run(NOTHING, moves);
    ReachableIsOk(w, m.attempt.target);
    AcceptsIsAdmits(w, m);
    StoredByKey(w.StoreOf(m.attempt.target), w.DirOf(m.place), m.attempt);
    FinishedByKey(w.StoreOf(m.attempt.target), w.DirOf(m.place), m.attempt);
    FinishesFrom(w, m);
    StepHere(w, m);
  }

  lemma FinishesFrom(w: World, m: Move)
    requires StoreOk(w.StoreOf(m.attempt.target)) && Accepts(w, m) && m.attempt.cut >= 13
    ensures var v := Step(w, m);
            var d, store := v.DirOf(m.place), v.StoreOf(m.attempt.target);
            && d.record.None? && d.compose == Some(m.attempt.compose)
            && IdentityKeys() <= store.Keys && PairMatches(store) && SSHHostKeyPublic in store
            && d.manifest == Some(Manifest(m.attempt.target, store[SSHHostKeyPublic]))
  {
    ExecuteEffect(w.StoreOf(m.attempt.target), w.DirOf(m.place), m.attempt);
    StepHere(w, m);
    hide RunSpec, Step, IdentityKeys, KeyOrder, PrefixClosed;
  }

  // One directory, one target: the retry the code promises.

  ghost predicate Alike(moves: seq<Move>, p: Place, t: Target) {
    forall m :: m in moves ==> m.place == p && m.attempt.target == t
  }

  ghost predicate Solo(w: World, p: Place, t: Target) {
    && (forall u, k :: (u, k) in w.owner ==> w.owner[(u, k)] == p)
    && (w.DirOf(p).record.Some? ==> w.DirOf(p).record.value.target == t)
  }

  lemma {:induction false} SoloStays(w: World, moves: seq<Move>, p: Place, t: Target)
    requires Reachable(w) && Solo(w, p, t) && Alike(moves, p, t)
    ensures Solo(Run(w, moves), p, t)
    decreases |moves|
  {
    if moves != [] {
      var m := moves[0];
      SoloStep(w, m, p, t);
      StepReachable(w, m);
      SoloStays(Step(w, m), moves[1..], p, t);
    }
  }

  lemma SoloStep(w: World, m: Move, p: Place, t: Target)
    requires Reachable(w) && Solo(w, p, t) && m.place == p && m.attempt.target == t
    ensures Solo(Step(w, m), p, t)
  {
    var store, dir := w.StoreOf(t), w.DirOf(p);
    assert StoreOk(store);
    hide *;
    StepHere(w, m);
    if Admits(store, dir, m.attempt) && m.attempt.cut > 0 {
      ExecuteEffect(store, dir, m.attempt);
      OutcomeRecord(store, m.attempt, RunSpec(store, dir, m.attempt).0, RunSpec(store, dir, m.attempt).1);
    } else {
      IdleDir(store, dir, m.attempt);
    }
    SoloOwners(w, m, p, t);
  }

  lemma OutcomeRecord(store: Contents, a: Attempt, store': Contents, dir': Dir)
    requires Outcome(store, a, store', dir')
    ensures dir'.record.Some? ==> dir'.record.value.target == a.target
    ensures dir'.record.None? ==> dir'.manifest.Some?
    ensures dir'.manifest.Some? ==> dir'.manifest.value.target == a.target && IdentityKeys() <= store'.Keys
  {
  }

  lemma SoloOwners(w: World, m: Move, p: Place, t: Target)
    requires Solo(w, p, t) && m.place == p
    requires Step(w, m).DirOf(p).record.Some? ==>
               Step(w, m).DirOf(p).record.value.target == t || Step(w, m).DirOf(p) == w.DirOf(p)
    ensures Solo(Step(w, m), p, t)
  {
    hide RunSpec, Present;
  }

  /** Over any number of crashed attempts of one directory at one target, the next
      attempt is refused if and only if compose/ or the manifest is already there. */
  lemma RetryRefusedExactly(moves: seq<Move>, m: Move)
    requires Alike(moves + [m], m.place, m.attempt.target)
    ensures !Accepts(Run(NOTHING, moves), m) <==> HoldsBundleFiles(Run(NOTHING, moves).DirOf(m.place))
  {
    var p, t := m.place, m.attempt.target;
    assert forall n :: n in moves ==> n in moves + [m];
    NothingIsReachable();
    SoloStays(NOTHING, moves, p, t);
    RefusedExactly(moves, m);
    var w := Run(NOTHING, moves);
    if Present(w.StoreOf(t)) != {} {
      var k :| k in Present(w.StoreOf(t));
      RunReachable(NOTHING, moves);
      assert (t, k) in w.owner;
      if w.DirOf(p).manifest.None? {
        RecordNamesEveryStoredKey(moves, p, t, k);
      }
    }
  }

  lemma {:induction false} StoreAllWhole(store: Contents, material: Contents, order: seq<Key>, left: nat)
    requires Distinct(order) && left >= |order|
    requires forall k :: k in order ==> k in material && k !in store
    ensures StoreAll(store, material, order, left).left == left - |order|
    ensures StoreAll(store, material, order, left).passed == |order|
    decreases |order|
  {
    if order != [] {
      var k := order[0];
      assert k !in order[1..];
      StoreAllWhole(store[k := material[k]], material, order[1..], left - 1);
    }
  }

  /** "Nothing needs to be deleted by hand" fails for one crash point: between the
      install of compose/ and the write of the manifest. A first named `init` that dies
      there (after its record, nine keys and compose/) is refused on every later retry. */
  lemma TornSaveBlocksEveryRetry(p: Place, a: Attempt, moves: seq<Move>, m: Move)
    requires a.certificate.Some? && a.cut == 11 && m.place == p
    ensures var w := Run(Step(NOTHING, Move(p, a)), moves);
            w.DirOf(p).compose.Some? && w.DirOf(p).manifest.None? && w.DirOf(p).record.Some? && !Accepts(w, m)
  {
    TornSave(p, a);
    TornStays(Step(NOTHING, Move(p, a)), moves, p);
  }

  lemma TornSave(p: Place, a: Attempt)
    requires a.certificate.Some? && a.cut == 11
    ensures var d := Step(NOTHING, Move(p, a)).DirOf(p);
            d.compose.Some? && d.manifest.None? && d.record.Some?
  {
    NothingIsReachable();
    AdmitsExactly(map[], EMPTY_DIR, a) by {
      assert StoreOk(NOTHING.StoreOf(a.target)) && DirOk(NOTHING, p);
    }
    assert Present(map[]) == {};
    StepHere(NOTHING, Move(p, a));
    TornFirstRun(a);
    hide Step, RunSpec;
  }

  lemma TornFirstRun(a: Attempt)
    requires Admits(map[], EMPTY_DIR, a) && a.certificate.Some? && a.cut == 11
    ensures var d := RunSpec(map[], EMPTY_DIR, a).1;
            d.compose.Some? && d.manifest.None? && d.record.Some?
  {
    FreshMaterial(a);
    EmptyStoreOk();
    StoreAllWhole(map[], Material(map[], EMPTY_DIR, a), KeyOrder(), 10);
    var p := AdmittedStores(map[], EMPTY_DIR, a);
    CompleteStore(p.store);
    RunUnfolds(map[], EMPTY_DIR, a, p);
    hide KeyOrder, RunSpec, StoreAll, Material, RecordedKeys;
  }

  lemma EmptyStoreOk()
    ensures StoreOk(map[])
  {
  }

  lemma FreshMaterial(a: Attempt)
    requires Admits(map[], EMPTY_DIR, a) && a.certificate.Some?
    ensures forall k :: k in KeyOrder() ==> k in Material(map[], EMPTY_DIR, a)
  {
    hide KeyOrder;
    var found := Admission(map[], EMPTY_DIR, a).value;
    assert found.reuse == Present(map[]) == {};
    assert forall k :: k in KeyOrder() ==> Wanted(k, found.reuse, a);
  }

  lemma {:induction false} TornStays(w: World, moves: seq<Move>, p: Place)
    requires w.DirOf(p).compose.Some?
    ensures Run(w, moves).DirOf(p) == w.DirOf(p)
    decreases |moves|
  {
    if moves != [] {
      var m := moves[0];
      if m.place == p {
        IdleDir(w.StoreOf(m.attempt.target), w.DirOf(p), m.attempt);
      }
      StepHere(w, m);
      StepElsewhereDir(w, m, p);
      TornStays(Step(w, m), moves[1..], p);
    }
  }

  lemma StepElsewhereDir(w: World, m: Move, p: Place)
    ensures p != m.place ==> Step(w, m).DirOf(p) == w.DirOf(p)
  {
    hide RunSpec, Present;
  }

  /** What the refusal of a torn bundle asks of the operator: compose/ and the manifest go, the record
      stays. */
  function Cleared(w: World, p: Place): World {
    w.(dirs := w.dirs[p := w.DirOf(p).(compose := None, manifest := None)])
  }

  lemma ClearedIsReachable(w: World, p: Place)
    requires Reachable(w) && w.DirOf(p).record.Some?
    ensures Reachable(Cleared(w, p))
  {
    hide StoreOk, IdentityKeys, Present;
    var v := Cleared(w, p);
    assert forall t :: v.StoreOf(t) == w.StoreOf(t);
    forall q ensures DirOk(v, q) {
      assert DirOk(w, q);
      assert q != p ==> v.DirOf(q) == w.DirOf(q);
    }
  }

  /** From any world, that makes the next attempt at the recorded target admitted; given its effects it
      finishes, on the identity keys that were there. */
  lemma ClearedBundleFinishes(w: World, m: Move)
    requires Reachable(w) && RecordMatches(w.DirOf(m.place), m.attempt.target) && m.attempt.cut >= 13
    ensures var cleared := Cleared(w, m.place);
            var v := Step(cleared, m);
            var d, before, store := v.DirOf(m.place), w.StoreOf(m.attempt.target), v.StoreOf(m.attempt.target);
            && Accepts(cleared, m)
            && d.record.None? && d.compose == Some(m.attempt.compose) && SSHHostKeyPublic in store
            && d.manifest == Some(Manifest(m.attempt.target, store[SSHHostKeyPublic]))
            && IdentityKeys() <= store.Keys && PairMatches(store)
            && (forall k :: k in before && !Rotates(k) ==> k in store && store[k] == before[k])
  {
    var cleared := Cleared(w, m.place);
    assert cleared.StoreOf(m.attempt.target) == w.StoreOf(m.attempt.target);
    assert RecordMatches(cleared.DirOf(m.place), m.attempt.target) && !HoldsBundleFiles(cleared.DirOf(m.place));
    assert w.DirOf(m.place).record.Some?;
    hide *;
    ClearedIsReachable(w, m.place);
    ReachableAccepts(cleared, m);
    ReachableIsOk(cleared, m.attempt.target);
    FinishesFrom(cleared, m);
    StepStores(cleared, m);
  }

  lemma ReachableIsOk(w: World, t: Target)
    requires Reachable(w)
    ensures StoreOk(w.StoreOf(t))
  {
  }

  // Whose identity a bundle ends up with.

  ghost predicate OwnsAll(w: World, p: Place, t: Target) {
    forall k :: (t, k) in w.owner ==> w.owner[(t, k)] == p
  }

  /** What a directory claims at a target, by its record or its manifest, it stored itself. */
  ghost predicate Honest(w: World) {
    forall p ::
      && (w.DirOf(p).record.Some? ==> OwnsAll(w, p, w.DirOf(p).record.value.target))
      && (w.DirOf(p).manifest.Some? ==> OwnsAll(w, p, w.DirOf(p).manifest.value.target))
  }

  /** A step claims only keys of its own target that nobody had stored. */
  lemma StepClaims(w: World, m: Move, t: Target, k: Key)
    requires Reachable(w) && (t, k) in Step(w, m).owner
    ensures if (t, k) in w.owner then Step(w, m).owner[(t, k)] == w.owner[(t, k)]
            else t == m.attempt.target && Step(w, m).owner[(t, k)] == m.place
  {
    hide RunSpec, StoreOk, DirOk;
  }

  lemma OwnStaysHonest(w: World, m: Move)
    requires Reachable(w) && Honest(w) && Accepts(w, m)
    ensures OwnsAll(Step(w, m), m.place, m.attempt.target)
  {
    var t := m.attempt.target;
    assert StoreOk(w.StoreOf(t)) && DirOk(w, m.place);
    AdmitsExactly(w.StoreOf(t), w.DirOf(m.place), m.attempt);
    forall k | (t, k) in Step(w, m).owner
      ensures Step(w, m).owner[(t, k)] == m.place
    {
      StepClaims(w, m, t, k);
      assert (t, k) in w.owner ==> k in Present(w.StoreOf(t));
    }
  }

  /** The attempt is admitted and gets to an identity key that is missing. */
  predicate StoresIdentity(w: World, m: Move) {
    Accepts(w, m) && ReachesIdentity(w.StoreOf(m.attempt.target), m.attempt)
  }

  /** That is when it puts identity keys into its target that were not there. */
  lemma StoresIdentityExactly(w: World, m: Move)
    requires Reachable(w)
    ensures StoresIdentity(w, m) <==>
            Present(Step(w, m).StoreOf(m.attempt.target)) != Present(w.StoreOf(m.attempt.target))
  {
    var store, dir, a := w.StoreOf(m.attempt.target), w.DirOf(m.place), m.attempt;
    assert StoreOk(store);
    hide *;
    AcceptsIsAdmits(w, m);
    StepHere(w, m);
    if Accepts(w, m) && a.cut > 0 {
      StoresExactly(store, dir, a);
      RunStoreKeeps(store, dir, a);
      AddsIsPresence(store, RunSpec(store, dir, a).0);
    } else {
      IdleDir(store, dir, a);
      CutIsNeeded(store, a);
    }
    StoringIs(w, m);
  }

  lemma StoringIs(w: World, m: Move)
    ensures StoresIdentity(w, m) <==> Accepts(w, m) && ReachesIdentity(w.StoreOf(m.attempt.target), m.attempt)
  {
  }

  lemma CutIsNeeded(store: Contents, a: Attempt)
    ensures ReachesIdentity(store, a) ==> a.cut > 0
  {
  }

  lemma RunStoreKeeps(store: Contents, dir: Dir, a: Attempt)
    requires StoreOk(store) && Admits(store, dir, a) && a.cut > 0
    ensures var after := RunSpec(store, dir, a).0;
            forall k :: k in after && k !in store && !Rotates(k) ==> IsIdentity(k)
    ensures store.Keys <= RunSpec(store, dir, a).0.Keys
  {
    hide *;
    var material := Material(store, dir, a);
    RunKeeps(store, dir, a);
    RunStore(store, dir, a);
    MaterialHolds(store, dir, a);
    StoreAllEffect(store, material, KeyOrder(), a.cut - 1);
    var p := StoreAll(store, material, KeyOrder(), a.cut - 1);
    AddedAreMaterial(store, material, KeyOrder()[..p.passed], p.store);
  }

  lemma AddedAreMaterial(store: Contents, material: Contents, passed: seq<Key>, after: Contents)
    requires Added(store, material, passed, after)
    ensures forall k :: k in after && k !in store ==> k in material
  {
  }

  lemma AddsIsPresence(store: Contents, after: Contents)
    requires store.Keys <= after.Keys
    requires forall k :: k in after && k !in store && !Rotates(k) ==> IsIdentity(k)
    ensures AddsIdentity(store, after) <==> Present(after) != Present(store)
  {
    if AddsIdentity(store, after) {
      var k :| k in after && k !in store && !Rotates(k);
      assert k in Present(after) && k !in Present(store);
    }
  }

  /** It does so while another directory has an unfinished record for the target. */
  ghost predicate Interferes(w: World, m: Move) {
    StoresIdentity(w, m) && exists q :: q != m.place && RecordMatches(w.DirOf(q), m.attempt.target)
  }

  lemma StepPresentGrows(w: World, m: Move)
    requires Reachable(w)
    ensures forall t :: Present(w.StoreOf(t)) <= Present(Step(w, m).StoreOf(t))
  {
    StepStores(w, m);
    hide Step, Reachable;
  }

  lemma NewKeysAreOwn(w: World, m: Move) returns (k: Key)
    requires Reachable(w) && StoresIdentity(w, m)
    ensures (m.attempt.target, k) !in w.owner && (m.attempt.target, k) in Step(w, m).owner
    ensures Step(w, m).owner[(m.attempt.target, k)] == m.place
  {
    var t, v := m.attempt.target, Step(w, m);
    StepStores(w, m);
    StepPresentGrows(w, m);
    StoresIdentityExactly(w, m);
    hide Step, Present, StoresIdentity;
    k :| k in Present(v.StoreOf(t)) && k !in Present(w.StoreOf(t));
    StepClaims(w, m, t, k);
  }

  lemma OthersStayHonest(w: World, m: Move, p: Place, t: Target)
    requires Reachable(w) && OwnsAll(w, p, t)
    requires t == m.attempt.target && StoresIdentity(w, m) ==> Present(w.StoreOf(t)) == IdentityKeys()
    ensures OwnsAll(Step(w, m), p, t)
  {
    StoresIdentityExactly(w, m);
    hide StoresIdentity;
    forall k | (t, k) in Step(w, m).owner
      ensures Step(w, m).owner[(t, k)] == p
    {
      StepClaims(w, m, t, k);
      StepStores(w, m);
      PresentAreIdentity(Step(w, m).StoreOf(t));
      assert (t, k) in w.owner <==> k in Present(w.StoreOf(t));
    }
  }

  lemma FinishedHasAll(w: World, p: Place)
    requires Reachable(w) && w.DirOf(p).manifest.Some?
    ensures Present(w.StoreOf(w.DirOf(p).manifest.value.target)) == IdentityKeys()
  {
    assert DirOk(w, p);
  }

  lemma HonestOther(w: World, m: Move, p: Place)
    requires Reachable(w) && Honest(w) && !Interferes(w, m) && p != m.place
    ensures var d := Step(w, m).DirOf(p);
            && (d.record.Some? ==> OwnsAll(Step(w, m), p, d.record.value.target))
            && (d.manifest.Some? ==> OwnsAll(Step(w, m), p, d.manifest.value.target))
  {
    StepElsewhereDir(w, m, p);
    var d := w.DirOf(p);
    hide Reachable, Step, OwnsAll, StoreOk, StoresIdentity;
    if d.record.Some? {
      OthersStayHonest(w, m, p, d.record.value.target);
    }
    if d.manifest.Some? {
      FinishedHasAll(w, p);
      OthersStayHonest(w, m, p, d.manifest.value.target);
    }
  }

  lemma HonestOwn(w: World, m: Move)
    requires Reachable(w) && Honest(w)
    ensures var d := Step(w, m).DirOf(m.place);
            && (d.record.Some? ==> OwnsAll(Step(w, m), m.place, d.record.value.target))
            && (d.manifest.Some? ==> OwnsAll(Step(w, m), m.place, d.manifest.value.target))
  {
    var store, dir := w.StoreOf(m.attempt.target), w.DirOf(m.place);
    assert StoreOk(store);
    if Accepts(w, m) && m.attempt.cut > 0 {
      hide *;
      OwnStaysHonest(w, m) by { AcceptsIsAdmits(w, m); }
      StepHere(w, m);
      AcceptsIsAdmits(w, m);
      ExecuteEffect(store, dir, m.attempt);
      OutcomeRecord(store, m.attempt, RunSpec(store, dir, m.attempt).0, RunSpec(store, dir, m.attempt).1);
    } else {
      hide RunSpec, Step, StoreOk, Reachable;
      IdleStep(w, m);
    }
  }

  lemma AcceptsIsAdmits(w: World, m: Move)
    ensures Accepts(w, m) <==> Admits(w.StoreOf(m.attempt.target), w.DirOf(m.place), m.attempt)
  {
  }

  lemma HarmlessStaysHonest(w: World, m: Move)
    requires Reachable(w) && Honest(w) && !Interferes(w, m)
    ensures Honest(Step(w, m))
  {
    hide Reachable, Step, OwnsAll, Interferes;
    forall p
      ensures var d := Step(w, m).DirOf(p);
              && (d.record.Some? ==> OwnsAll(Step(w, m), p, d.record.value.target))
              && (d.manifest.Some? ==> OwnsAll(Step(w, m), p, d.manifest.value.target))
    {
      if p == m.place {
        HonestOwn(w, m);
      } else {
        HonestOther(w, m, p);
      }
    }
  }

  lemma InterferenceIsDishonest(w: World, m: Move)
    requires Reachable(w) && Interferes(w, m)
    ensures !Honest(Step(w, m))
  {
    hide Reachable, Step, StoresIdentity;
    var q :| q != m.place && RecordMatches(w.DirOf(q), m.attempt.target);
    var k := NewKeysAreOwn(w, m);
    StepElsewhereDir(w, m, q);
    assert !OwnsAll(Step(w, m), q, m.attempt.target);
  }

  /** An attempt leaves every claim true exactly when it stores no identity key under another
      directory's unfinished record. */
  lemma StaysHonestExactly(w: World, m: Move)
    requires Reachable(w) && Honest(w)
    ensures Honest(Step(w, m)) <==> !Interferes(w, m)
  {
    hide Reachable, Step, Honest, Interferes;
    if Interferes(w, m) {
      InterferenceIsDishonest(w, m);
    } else {
      HarmlessStaysHonest(w, m);
    }
  }

  ghost predicate NoneInterferes(w: World, moves: seq<Move>)
    decreases |moves|
  {
    moves != [] ==> !Interferes(w, moves[0]) && NoneInterferes(Step(w, moves[0]), moves[1..])
  }

  ghost predicate HonestThroughout(w: World, moves: seq<Move>)
    decreases |moves|
  {
    Honest(w) && (moves != [] ==> HonestThroughout(Step(w, moves[0]), moves[1..]))
  }

  /** Over every run from nothing, whatever is refused and wherever it stops, all claims are true all
      the time exactly when no attempt interferes. */
  lemma HonestThroughoutExactly(moves: seq<Move>)
    ensures HonestThroughout(NOTHING, moves) <==> NoneInterferes(NOTHING, moves)
  {
    NothingIsReachable();
    assert Honest(NOTHING);
    HonestRun(NOTHING, moves);
  }

  lemma {:induction false} HonestRun(w: World, moves: seq<Move>)
    requires Reachable(w) && Honest(w)
    ensures HonestThroughout(w, moves) <==> NoneInterferes(w, moves)
    ensures NoneInterferes(w, moves) ==> Honest(Run(w, moves))
    decreases |moves|
  {
    hide Reachable, Step, Honest, Interferes;
    if moves != [] {
      StaysHonestExactly(w, moves[0]);
      StepReachable(w, moves[0]);
      if !Interferes(w, moves[0]) {
        HonestRun(Step(w, moves[0]), moves[1..]);
      }
    }
  }

  /** Where no attempt interferes, two finished bundles never share a keystore target, hence never
      an identity. */
  lemma TwoBundlesTwoIdentities(moves: seq<Move>, p: Place, q: Place)
    requires NoneInterferes(NOTHING, moves) && p != q
    requires Run(NOTHING, moves).DirOf(p).manifest.Some? && Run(NOTHING, moves).DirOf(q).manifest.Some?
    ensures Run(NOTHING, moves).DirOf(p).manifest.value.target != Run(NOTHING, moves).DirOf(q).manifest.value.target
  {
    NothingIsReachable();
    RunReachable(NOTHING, moves);
    assert Honest(NOTHING);
    HonestRun(NOTHING, moves);
    var w := Run(NOTHING, moves);
    var t := w.DirOf(p).manifest.value.target;
    FinishedHasAll(w, p);
    PublicIsIdentity();
    assert (t, SSHHostKeyPublic) in w.owner;
    assert OwnsAll(w, p, t);
  }

  lemma PublicIsIdentity()
    ensures SSHHostKeyPublic in IdentityKeys()
  {
  }

  /** What interference leads to: the record names what a run meant to store. `p` dies after
      its record, `q` finishes at the same target, `p` retries and adopts q's identity. */
  lemma StaleRecordSharesIdentity(p: Place, q: Place, crashed: Attempt, whole: Attempt)
    requires p != q && crashed.cut == 1 && whole.cut >= 13 && crashed.target == whole.target
    ensures var w := Run(NOTHING, [Move(p, crashed), Move(q, whole), Move(p, whole)]);
            && w.DirOf(p).manifest.Some? && w.DirOf(q).manifest.Some?
            && w.DirOf(p).manifest.value == w.DirOf(q).manifest.value
            && w.DirOf(p).record.None? && w.DirOf(q).record.None?
  {
    var t := whole.target;
    var m1, m2, m3 := Move(p, crashed), Move(q, whole), Move(p, whole);
    var w1 := Step(NOTHING, m1);
    var w2 := Step(w1, m2);
    var w3 := Step(w2, m3);
    assert !HoldsBundleFiles(EMPTY_DIR);
    hide *;
    RunOf3(NOTHING, m1, m2, m3);
    NothingIsReachable();
    RecordOnly(p, crashed);
    StepReachable(NOTHING, m1);
    StepElsewhereDir(NOTHING, m1, q);
    AcceptedFrom(w1, m2);
    StepReachable(w1, m2);
    StepElsewhereDir(w1, m2, p);
    AcceptedFrom(w2, m3);
    StepReachable(w2, m3);
    StepElsewhereDir(w2, m3, q);
    SameTargetSameKey(w3, p, q);
  }

  lemma RunOf3(w: World, a: Move, b: Move, c: Move)
    ensures Run(w, [a, b, c]) == Step(Step(Step(w, a), b), c)
  {
    hide Step;
    assert [a, b, c][1..] == [b, c] && [b, c][1..] == [c] && [c][1..] == [];
    assert Run(Step(Step(w, a), b), [c]) == Step(Step(Step(w, a), b), c);
  }

  lemma RecordOnly(p: Place, a: Attempt)
    requires a.cut == 1
    ensures var w := Step(NOTHING, Move(p, a));
            && !HoldsBundleFiles(w.DirOf(p)) && RecordMatches(w.DirOf(p), a.target)
            && Present(w.StoreOf(a.target)) == {}
            && forall q :: q != p ==> w.DirOf(q) == EMPTY_DIR
  {
    EmptyStoreOk();
    assert Present(map[]) == {};
    AdmitsExactly(map[], EMPTY_DIR, a);
    StepHere(NOTHING, Move(p, a));
    NothingStored(map[], Material(map[], EMPTY_DIR, a), KeyOrder());
    RunStore(map[], EMPTY_DIR, a);
    forall q | q != p
      ensures Step(NOTHING, Move(p, a)).DirOf(q) == EMPTY_DIR
    {
      StepElsewhereDir(NOTHING, Move(p, a), q);
    }
    FirstRecord(a);
    hide Step, RunSpec, KeyOrder, StoreAll;
  }

  lemma FirstRecord(a: Attempt)
    requires a.cut == 1 && Admits(map[], EMPTY_DIR, a)
    ensures var d := RunSpec(map[], EMPTY_DIR, a).1;
            d.record.Some? && d.record.value.target == a.target && d.compose.None? && d.manifest.None?
  {
    assert EMPTY_DIR.compose.None? && EMPTY_DIR.manifest.None?;
    hide *;
    NothingPassed(a);
    var keys := StoppedDir(map[], EMPTY_DIR, a);
  }

  lemma NothingPassed(a: Attempt)
    requires a.cut == 1 && Admits(map[], EMPTY_DIR, a)
    ensures StoreAll(map[], Material(map[], EMPTY_DIR, a), KeyOrder(), 0).passed < |KeyOrder()|
  {
    EmptyStoreOk();
    PublicIsIdentity();
    NothingStored(map[], Material(map[], EMPTY_DIR, a), KeyOrder());
    hide *;
    var p := AdmittedStores(map[], EMPTY_DIR, a);
    assert p.store == map[];
  }

  lemma StoppedDir(store: Contents, dir: Dir, a: Attempt) returns (keys: set<Key>)
    requires Admits(store, dir, a) && a.cut > 0
    requires StoreAll(store, Material(store, dir, a), KeyOrder(), a.cut - 1).passed < |KeyOrder()|
    ensures RunSpec(store, dir, a).1 == dir.(record := Some(Record(a.target, keys)))
  {
    keys := RecordedKeys(Material(store, dir, a), Admission(store, dir, a).value.reuse);
    hide *;
    RunUnfolds(store, dir, a, StoreAll(store, Material(store, dir, a), KeyOrder(), a.cut - 1));
  }

  lemma {:induction false} NothingStored(store: Contents, material: Contents, order: seq<Key>)
    ensures StoreAll(store, material, order, 0).store == store
    decreases |order|
  {
    if order != [] && order[0] !in material {
      NothingStored(store, material, order[1..]);
    }
  }

  lemma AcceptedFrom(w: World, m: Move)
    requires Reachable(w) && !HoldsBundleFiles(w.DirOf(m.place)) && m.attempt.cut >= 13
    requires Present(w.StoreOf(m.attempt.target)) == {} || RecordMatches(w.DirOf(m.place), m.attempt.target)
    ensures var d := Step(w, m).DirOf(m.place);
            d.record.None? && d.manifest.Some? && d.manifest.value.target == m.attempt.target
  {
    assert StoreOk(w.StoreOf(m.attempt.target)) && DirOk(w, m.place);
    AdmitsExactly(w.StoreOf(m.attempt.target), w.DirOf(m.place), m.attempt);
    FinishesFrom(w, m);
    hide Step, Reachable, KeyOrder;
  }

  lemma SameTargetSameKey(w: World, p: Place, q: Place)
    requires Reachable(w) && w.DirOf(p).manifest.Some? && w.DirOf(q).manifest.Some?
    requires w.DirOf(p).manifest.value.target == w.DirOf(q).manifest.value.target
    ensures w.DirOf(p).manifest == w.DirOf(q).manifest
  {
    assert DirOk(w, p) && DirOk(w, q);
  }

  /** Exactly when an attempt makes the next one of another directory take over keys it did not
      store: it stores some at that directory's recorded target, and no bundle file refuses the next. */
  lemma AdoptsExactly(w: World, m: Move, next: Move)
    requires Reachable(w) && Honest(w) && next.place != m.place
    ensures var v, t := Step(w, m), next.attempt.target;
            Accepts(v, next) && (exists k :: (t, k) in v.owner && v.owner[(t, k)] != next.place) <==>
              && StoresIdentity(w, m) && m.attempt.target == t
              && RecordMatches(w.DirOf(next.place), t) && !HoldsBundleFiles(w.DirOf(next.place))
  {
    var v, t, d := Step(w, m), next.attempt.target, w.DirOf(next.place);
    StepReachable(w, m);
    StepElsewhereDir(w, m, next.place);
    ReachableAccepts(v, next);
    hide Step, Reachable, Honest, Present, StoresIdentity, HoldsBundleFiles, Accepts;
    if Accepts(v, next) {
      if k :| (t, k) in v.owner && v.owner[(t, k)] != next.place {
        OwnedIsPresent(v, t, k);
        ForeignKeyIsNew(w, m, next.place, t, k);
      }
    }
    if StoresIdentity(w, m) && m.attempt.target == t && RecordMatches(d, t) && !HoldsBundleFiles(d) {
      var k := NewKeysAreOwn(w, m);
    }
  }

  lemma ReachableAccepts(w: World, m: Move)
    requires Reachable(w)
    ensures Accepts(w, m) <==>
            !HoldsBundleFiles(w.DirOf(m.place))
            && (Present(w.StoreOf(m.attempt.target)) == {} || RecordMatches(w.DirOf(m.place), m.attempt.target))
  {
    assert StoreOk(w.StoreOf(m.attempt.target)) && DirOk(w, m.place);
    AdmitsExactly(w.StoreOf(m.attempt.target), w.DirOf(m.place), m.attempt);
    hide StoreOk, Present, HoldsBundleFiles, Reachable;
  }

  lemma OwnedIsPresent(w: World, t: Target, k: Key)
    requires Reachable(w) && (t, k) in w.owner
    ensures Present(w.StoreOf(t)) != {}
  {
    assert k in Present(w.StoreOf(t));
    hide Present;
  }

  lemma ForeignKeyIsNew(w: World, m: Move, q: Place, t: Target, k: Key)
    requires Reachable(w) && Honest(w) && RecordMatches(w.DirOf(q), t)
    requires (t, k) in Step(w, m).owner && Step(w, m).owner[(t, k)] != q
    ensures StoresIdentity(w, m) && m.attempt.target == t
  {
    StepClaims(w, m, t, k);
    assert OwnsAll(w, q, t);
    StepStores(w, m);
    StoresIdentityExactly(w, m);
    hide Step, Present, StoresIdentity;
    assert k !in Present(w.StoreOf(t)) && k in Present(Step(w, m).StoreOf(t));
  }
}
