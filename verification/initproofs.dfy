/** What every sequence of crashed, refused and finished `init` runs keeps. */
module InitProofs {
  import opened Prelude
  import opened Text
  import opened InitRun

  /** The identity keys present are the first ones of the store order. */
  ghost predicate PrefixClosed(store: Contents, order: seq<Key>) {
    forall i, j :: 0 <= i < j < |order| && !Rotates(order[i]) && !Rotates(order[j]) && order[j] in store ==>
                     order[i] in store
  }

  ghost predicate PairMatches(store: Contents) {
    && (SSHHostKey in store ==> store[SSHHostKey].HostKey?)
    && (SSHHostKeyPublic in store ==>
          SSHHostKey in store && PublicHalf(store[SSHHostKey]) == Some(store[SSHHostKeyPublic]))
  }

  ghost predicate StoreOk(store: Contents) {
    PrefixClosed(store, KeyOrder()) && PairMatches(store)
  }

  ghost predicate RecordOk(dir: Dir) {
    dir.record.Some? ==> dir.record.value.keys == IdentityKeys()
  }

  /** The guard alone: whatever is asked of it, a protected value stays. */
  lemma {:induction false} StoreAllKeeps(store: Contents, material: Contents, order: seq<Key>, left: nat)
    ensures var p := StoreAll(store, material, order, left);
            && store.Keys <= p.store.Keys
            && (forall k :: k in store && !Rotates(k) ==> p.store[k] == store[k])
    decreases |order|
  {
    if order != [] && order[0] !in material {
      StoreAllKeeps(store, material, order[1..], left);
    } else if order != [] && left > 0 && !(!Rotates(order[0]) && order[0] in store) {
      StoreAllKeeps(store[order[0] := material[order[0]]], material, order[1..], left - 1);
    }
  }

  /** `after` is `store` with the material of the names passed, and nothing else. */
  ghost predicate Added(store: Contents, material: Contents, passed: seq<Key>, after: Contents) {
    && (forall k :: k in after <==> k in store || (k in passed && k in material))
    && (forall k :: k in after ==> after[k] == if k in passed && k in material then material[k] else store[k])
  }

  lemma AddedSkip(store: Contents, material: Contents, k: Key, passed: seq<Key>, after: Contents)
    requires k !in material && Added(store, material, passed, after)
    ensures Added(store, material, [k] + passed, after)
  {
  }

  lemma AddedPut(store: Contents, material: Contents, k: Key, passed: seq<Key>, after: Contents)
    requires k in material && Added(store[k := material[k]], material, passed, after)
    ensures Added(store, material, [k] + passed, after)
  {
  }

  lemma DistinctRest(order: seq<Key>)
    requires Distinct(order) && order != []
    ensures Distinct(order[1..]) && order[0] !in order[1..]
  {
  }

  /** Where the guard has nothing to refuse, storing is limited by the crash alone. */
  lemma {:induction false} StoreAllEffect(store: Contents, material: Contents, order: seq<Key>, left: nat)
    requires Distinct(order)
    requires forall k :: k in order && k in material && !Rotates(k) ==> k !in store
    ensures var p := StoreAll(store, material, order, left);
            && Added(store, material, order[..p.passed], p.store)
            && (left >= |order| ==> p.passed == |order| && p.left >= left - |order|)
    decreases |order|
  {
    hide Added, Distinct, Rotates;
    var p := StoreAll(store, material, order, left);
    if order != [] {
      DistinctRest(order);
    }
    if p.passed == 0 {
      NothingAdded(store, material);
    } else {
      var k, rest := order[0], order[1..];
      PassedOne(order, p.passed - 1);
      if k !in material {
        StoreAllEffect(store, material, rest, left);
        AddedSkip(store, material, k, rest[..p.passed - 1], p.store);
      } else {
        StoreAllEffect(store[k := material[k]], material, rest, left - 1);
        AddedPut(store, material, k, rest[..p.passed - 1], p.store);
      }
    }
  }

  /** With effects to spare, storing stops at the first name whose key is there already and may not be
      replaced, and only there. */
  lemma {:induction false} StoreAllStops(store: Contents, material: Contents, order: seq<Key>, left: nat)
    requires Distinct(order) && left >= |order|
    ensures var passed := StoreAll(store, material, order, left).passed;
            && (forall k :: k in order[..passed] && k in material && k != TLSCertificate && k != TLSPrivateKey ==>
                  k !in store)
            && (passed < |order| ==>
                  && order[passed] in material && order[passed] in store
                  && order[passed] != TLSCertificate && order[passed] != TLSPrivateKey)
    decreases |order|
  {
    if order != [] {
      DistinctRest(order);
      var k, rest := order[0], order[1..];
      if k !in material {
        StoreAllStops(store, material, rest, left);
      } else if Rotates(k) || k !in store {
        StoreAllStops(store[k := material[k]], material, rest, left - 1);
      }
    }
  }

  lemma NothingAdded(store: Contents, material: Contents)
    ensures Added(store, material, [], store)
  {
  }

  lemma PassedOne(order: seq<Key>, n: nat)
    requires order != [] && n < |order|
    ensures order[..n + 1] == [order[0]] + order[1..][..n]
  {
  }

  /** Material that completes a keystore: exactly the identity keys not there yet,
      with a public half that belongs to the private one. */
  ghost predicate Completes(store: Contents, material: Contents) {
    && (forall k :: k in material && !Rotates(k) <==> IsIdentity(k) && k !in store)
    && (SSHHostKey in material ==> material[SSHHostKey].HostKey?)
    && (SSHHostKeyPublic in material && SSHHostKey in store ==>
          PublicHalf(store[SSHHostKey]) == Some(material[SSHHostKeyPublic]))
    && (SSHHostKeyPublic in material && SSHHostKey in material ==>
          PublicHalf(material[SSHHostKey]) == Some(material[SSHHostKeyPublic]))
  }

  function Material(store: Contents, dir: Dir, a: Attempt): Contents
    requires Admits(store, dir, a)
  {
    var found := Admission(store, dir, a).value;
    Generated(found.reuse, a) + found.derived
  }

  lemma AdmittedMaterial(store: Contents, dir: Dir, a: Attempt)
    requires StoreOk(store) && Admits(store, dir, a)
    ensures Completes(store, Material(store, dir, a))
    ensures Admission(store, dir, a).value.reuse == Present(store)
    ensures RecordedKeys(Material(store, dir, a), Present(store)) == IdentityKeys()
  {
    hide KeyOrder;
    var found := Admission(store, dir, a).value;
    var base := Generated(found.reuse, a);
    forall k
      ensures k in base + found.derived && !Rotates(k) <==> IsIdentity(k) && k !in store
    {
      assert k in base <==> !k.OtherKey? && Wanted(k, found.reuse, a);
    }
  }

  lemma StoredPrefix(store: Contents, material: Contents, order: seq<Key>, n: nat, after: Contents)
    requires Distinct(order) && n <= |order| && PrefixClosed(store, order)
    requires forall k :: k in order && !Rotates(k) ==> k in store || k in material
    requires Added(store, material, order[..n], after)
    ensures PrefixClosed(after, order)
  {
    forall i, j | 0 <= i < j < |order| && !Rotates(order[i]) && !Rotates(order[j]) && order[j] in after
      ensures order[i] in after
    {
      if order[j] !in store {
        assert order[j] in order[..n];
        assert i < n && order[..n][i] == order[i];
      }
    }
  }

  lemma StoringKeepsOk(store: Contents, material: Contents, left: nat)
    requires StoreOk(store) && Completes(store, material)
    ensures var p := StoreAll(store, material, KeyOrder(), left);
            && StoreOk(p.store) && store.Keys <= p.store.Keys
            && (forall k :: k in store && !Rotates(k) ==> p.store[k] == store[k])
            && (p.passed == |KeyOrder()| ==> IdentityKeys() <= p.store.Keys)
            && (left >= 9 ==> p.passed == |KeyOrder()| && p.left >= left - 9)
  {
    hide KeyOrder, StoreAll;
    var order := KeyOrder();
    StoreAllKeeps(store, material, order, left);
    StoreAllEffect(store, material, order, left);
    var p := StoreAll(store, material, order, left);
    StoredPrefix(store, material, order, p.passed, p.store);
    if SSHHostKeyPublic in p.store {
      assert order[6] in p.store;
    }
    if p.passed == |order| {
      assert order[..|order|] == order;
    }
  }

  /** How an admitted run that performs something leaves the keystore and the directory. */
  ghost predicate Outcome(store: Contents, a: Attempt, store': Contents, dir': Dir) {
    && StoreOk(store') && store.Keys <= store'.Keys
    && (forall k :: k in store && !Rotates(k) ==> store'[k] == store[k])
    && (dir'.record.Some? ==> dir'.record == Some(Record(a.target, IdentityKeys())))
    && (dir'.record.None? ==> dir'.manifest.Some?)
    && (dir'.manifest.Some? ==>
          && dir'.compose == Some(a.compose)
          && IdentityKeys() <= store'.Keys && SSHHostKeyPublic in store'
          && dir'.manifest == Some(Manifest(a.target, store'[SSHHostKeyPublic])))
    && (a.cut >= 13 ==> dir'.manifest.Some? && dir'.record.None?)
  }

  lemma RunUnfolds(store: Contents, dir: Dir, a: Attempt, p: Progress)
    requires Admits(store, dir, a) && a.cut > 0
    requires p == StoreAll(store, Material(store, dir, a), KeyOrder(), a.cut - 1)
    requires p.passed == |KeyOrder()| ==> SSHHostKeyPublic in p.store && LooksPublic(p.store[SSHHostKeyPublic])
    ensures var keys := RecordedKeys(Material(store, dir, a), Admission(store, dir, a).value.reuse);
            var recorded := dir.(record := Some(Record(a.target, keys)));
            RunSpec(store, dir, a) ==
            (p.store, if p.passed < |KeyOrder()| then recorded else Publish(p.store, recorded, a, p.left))
  {
    hide KeyOrder, Generated, Admission, StoreAll, LooksPublic, RecordedKeys, Publish;
  }

  lemma PublishOutcome(store: Contents, dir: Dir, a: Attempt, p: Progress)
    requires dir.compose.None? && dir.manifest.None? && dir.record == Some(Record(a.target, IdentityKeys()))
    requires StoreOk(p.store) && store.Keys <= p.store.Keys
    requires forall k :: k in store && !Rotates(k) ==> p.store[k] == store[k]
    requires IdentityKeys() <= p.store.Keys && SSHHostKeyPublic in p.store
    requires a.cut >= 13 ==> p.left >= 3
    ensures Outcome(store, a, p.store, Publish(p.store, dir, a, p.left))
  {
    hide StoreOk, IdentityKeys, KeyOrder;
  }

  /** The state after the stores of an admitted run, whichever of them it reached. */
  lemma AdmittedStores(store: Contents, dir: Dir, a: Attempt) returns (p: Progress)
    requires StoreOk(store) && Admits(store, dir, a) && a.cut > 0
    ensures p == StoreAll(store, Material(store, dir, a), KeyOrder(), a.cut - 1)
    ensures StoreOk(p.store) && store.Keys <= p.store.Keys
    ensures forall k :: k in store && !Rotates(k) ==> p.store[k] == store[k]
    ensures p.passed == |KeyOrder()| ==> IdentityKeys() <= p.store.Keys
    ensures a.cut >= 13 ==> p.passed == |KeyOrder()| && p.left >= 3
    ensures RecordedKeys(Material(store, dir, a), Admission(store, dir, a).value.reuse) == IdentityKeys()
  {
    hide *;
    AdmittedMaterial(store, dir, a);
    StoringKeepsOk(store, Material(store, dir, a), a.cut - 1);
    p := StoreAll(store, Material(store, dir, a), KeyOrder(), a.cut - 1);
  }

  lemma CompleteStore(store: Contents)
    requires StoreOk(store) && IdentityKeys() <= store.Keys
    ensures SSHHostKeyPublic in store && LooksPublic(store[SSHHostKeyPublic])
  {
    assert SSHHostKeyPublic in IdentityKeys();
  }

  lemma ExecuteEffect(store: Contents, dir: Dir, a: Attempt)
    requires StoreOk(store) && Admits(store, dir, a) && a.cut > 0
    ensures Outcome(store, a, RunSpec(store, dir, a).0, RunSpec(store, dir, a).1)
  {
    AdmittedDir(store, dir, a);
    hide *;
    var p := AdmittedStores(store, dir, a);
    var recorded := dir.(record := Some(Record(a.target, IdentityKeys())));
    if p.passed == |KeyOrder()| {
      CompleteStore(p.store);
      PublishOutcome(store, recorded, a, p);
    } else {
      StoppedOutcome(store, recorded, a, p);
    }
    RunUnfolds(store, dir, a, p);
  }

  lemma StoppedOutcome(store: Contents, dir: Dir, a: Attempt, p: Progress)
    requires dir.compose.None? && dir.manifest.None? && dir.record == Some(Record(a.target, IdentityKeys()))
    requires StoreOk(p.store) && store.Keys <= p.store.Keys
    requires forall k :: k in store && !Rotates(k) ==> p.store[k] == store[k]
    requires a.cut < 13
    ensures Outcome(store, a, p.store, dir)
  {
    hide StoreOk, IdentityKeys, KeyOrder;
  }

  lemma AdmittedDir(store: Contents, dir: Dir, a: Attempt)
    requires Admits(store, dir, a)
    ensures dir.compose.None? && dir.manifest.None?
  {
  }

  /** The material of an admitted attempt: the missing keys, each with its own new value, except that the
      missing public half of a stored host key is that key's. */
  lemma MaterialByKey(store: Contents, dir: Dir, a: Attempt)
    requires StoreOk(store) && Admits(store, dir, a)
    ensures var m := Material(store, dir, a);
            && (forall k :: k in m ==> !k.OtherKey?)
            && (SecretKey in m ==> m[SecretKey] == Text(a.secretKey))
            && (InternalToken in m ==> m[InternalToken] == Text(a.internalToken))
            && (LFSJWTSecret in m ==> m[LFSJWTSecret] == Text(a.lfsSecret))
            && (RunnerSecret in m ==> m[RunnerSecret] == Text(a.runnerSecret))
            && (AgeBackupKey in m ==> m[AgeBackupKey] == Text(a.ageKey))
            && (SSHHostKey in m ==> m[SSHHostKey] == HostKey(a.hostSeed))
            && (SSHHostKeyPublic in m && SSHHostKey !in store ==> m[SSHHostKeyPublic] == HostKeyPublic(a.hostSeed))
            && (SSHHostKeyPublic in m && SSHHostKey in store ==>
                  store[SSHHostKey].HostKey? && m[SSHHostKeyPublic] == HostKeyPublic(store[SSHHostKey].seed))
            && (a.certificate.Some? <==> TLSCertificate in m)
            && (a.certificate.Some? <==> TLSPrivateKey in m)
            && (a.certificate.Some? ==>
                  && m[TLSCertificate] == Text(a.certificate.value.0)
                  && m[TLSPrivateKey] == Text(a.certificate.value.1))
  {
    var found := Admission(store, dir, a).value;
    GeneratedByKey(found.reuse, a);
    AdmittedMaterial(store, dir, a);
    hide KeyOrder, Generated, Inspect, Completes;
    DerivedIsTheMissingHalf(store, dir, a);
  }

  lemma DerivedIsTheMissingHalf(store: Contents, dir: Dir, a: Attempt)
    requires StoreOk(store) && Admits(store, dir, a)
    ensures var found := Admission(store, dir, a).value;
            && (forall k :: k in found.derived <==> k == SSHHostKeyPublic && k !in store && SSHHostKey in store)
            && (SSHHostKeyPublic in found.derived ==>
                  && store[SSHHostKey].HostKey?
                  && found.derived[SSHHostKeyPublic] == HostKeyPublic(store[SSHHostKey].seed))
  {
    assert PairMatches(store);
    hide KeyOrder;
  }

  /** Wherever an admitted attempt stops, a key that was not there before has the value generated for
      that very key; what was there is kept, but for the certificate of a named bundle. */
  lemma StoredByKey(store: Contents, dir: Dir, a: Attempt)
    requires StoreOk(store) && Admits(store, dir, a) && a.cut > 0
    ensures var after := RunSpec(store, dir, a).0;
            && (forall k :: k in store ==> k in after)
            && (forall k :: k in store && !(k == TLSCertificate || k == TLSPrivateKey) ==> after[k] == store[k])
            && (forall k :: k in after && k.OtherKey? ==> k in store)
            && (SecretKey in after && SecretKey !in store ==> after[SecretKey] == Text(a.secretKey))
            && (InternalToken in after && InternalToken !in store ==> after[InternalToken] == Text(a.internalToken))
            && (LFSJWTSecret in after && LFSJWTSecret !in store ==> after[LFSJWTSecret] == Text(a.lfsSecret))
            && (RunnerSecret in after && RunnerSecret !in store ==> after[RunnerSecret] == Text(a.runnerSecret))
            && (AgeBackupKey in after && AgeBackupKey !in store ==> after[AgeBackupKey] == Text(a.ageKey))
            && (SSHHostKey in after && SSHHostKey !in store ==> after[SSHHostKey] == HostKey(a.hostSeed))
            && (SSHHostKeyPublic in after && SSHHostKeyPublic !in store ==>
                  && SSHHostKey in after && after[SSHHostKey].HostKey?
                  && after[SSHHostKeyPublic] == HostKeyPublic(after[SSHHostKey].seed))
            && (TLSCertificate in after ==>
                  || (TLSCertificate in store && after[TLSCertificate] == store[TLSCertificate])
                  || (a.certificate.Some? && after[TLSCertificate] == Text(a.certificate.value.0)))
            && (TLSPrivateKey in after ==>
                  || (TLSPrivateKey in store && after[TLSPrivateKey] == store[TLSPrivateKey])
                  || (a.certificate.Some? && after[TLSPrivateKey] == Text(a.certificate.value.1)))
  {
    ExecuteEffect(store, dir, a);
    MaterialByKey(store, dir, a);
    var passed := StoredFrom(store, dir, a);
    var after := RunSpec(store, dir, a).0;
    assert StoreOk(after) && PairMatches(after);
    hide KeyOrder, RunSpec, Material, Completes, Outcome, PrefixClosed;
  }

  /** What is stored is what was there and the material of the names passed. */
  lemma StoredFrom(store: Contents, dir: Dir, a: Attempt) returns (passed: seq<Key>)
    requires StoreOk(store) && Admits(store, dir, a) && a.cut > 0
    ensures Added(store, Material(store, dir, a), passed, RunSpec(store, dir, a).0)
    ensures forall k :: k in Material(store, dir, a) && !Rotates(k) ==> k !in store
    ensures a.cut >= 13 ==> passed == KeyOrder()
  {
    hide *;
    AdmittedMaterial(store, dir, a);
    CompletesMisses(store, Material(store, dir, a));
    passed := PassedNames(store, Material(store, dir, a), a.cut - 1);
    RunStore(store, dir, a);
  }

  lemma PassedNames(store: Contents, material: Contents, left: nat) returns (passed: seq<Key>)
    requires forall k :: k in material && !Rotates(k) ==> k !in store
    ensures Added(store, material, passed, StoreAll(store, material, KeyOrder(), left).store)
    ensures left >= 12 ==> passed == KeyOrder()
  {
    hide *;
    passed := PassedOf(store, material, KeyOrder(), left);
  }

  lemma PassedOf(store: Contents, material: Contents, order: seq<Key>, left: nat) returns (passed: seq<Key>)
    requires Distinct(order) && forall k :: k in material && !Rotates(k) ==> k !in store
    ensures Added(store, material, passed, StoreAll(store, material, order, left).store)
    ensures left >= |order| ==> passed == order
  {
    hide *;
    StoreAllEffect(store, material, order, left);
    passed := order[..StoreAll(store, material, order, left).passed];
    assert order[..|order|] == order;
  }

  lemma CompletesMisses(store: Contents, material: Contents)
    requires Completes(store, material)
    ensures forall k :: k in material && !Rotates(k) ==> k !in store
  {
  }

  /** And an attempt that makes all its effects leaves every one of them there. */
  lemma FinishedByKey(store: Contents, dir: Dir, a: Attempt)
    requires StoreOk(store) && Admits(store, dir, a) && a.cut >= 13
    ensures var after := RunSpec(store, dir, a).0;
            && {SecretKey, InternalToken, LFSJWTSecret, RunnerSecret, AgeBackupKey} <= after.Keys
            && {SSHHostKey, SSHHostKeyPublic} <= after.Keys
            && after[SSHHostKey].HostKey? && after[SSHHostKeyPublic] == HostKeyPublic(after[SSHHostKey].seed)
            && (a.certificate.Some? ==>
                  && TLSCertificate in after && after[TLSCertificate] == Text(a.certificate.value.0)
                  && TLSPrivateKey in after && after[TLSPrivateKey] == Text(a.certificate.value.1))
            && (a.certificate.None? ==>
                  forall k :: k == TLSCertificate || k == TLSPrivateKey ==>
                    (k in after <==> k in store) && (k in store ==> after[k] == store[k]))
  {
    hide *;
    IdentityStored(store, dir, a);
    CertificateStored(store, dir, a);
    IdentityNames();
  }

  lemma IdentityStored(store: Contents, dir: Dir, a: Attempt)
    requires StoreOk(store) && Admits(store, dir, a) && a.cut >= 13
    ensures IdentityKeys() <= RunSpec(store, dir, a).0.Keys
    ensures PairMatches(RunSpec(store, dir, a).0)
    ensures var after := RunSpec(store, dir, a).0;
            SSHHostKeyPublic in after ==>
              && SSHHostKey in after && after[SSHHostKey].HostKey?
              && after[SSHHostKeyPublic] == HostKeyPublic(after[SSHHostKey].seed)
  {
    ExecuteEffect(store, dir, a);
    assert StoreOk(RunSpec(store, dir, a).0);
    hide RunSpec, PrefixClosed, Admits, IdentityKeys, KeyOrder;
  }

  lemma IdentityNames()
    ensures {SecretKey, InternalToken, LFSJWTSecret, RunnerSecret, AgeBackupKey} <= IdentityKeys()
    ensures {SSHHostKey, SSHHostKeyPublic} <= IdentityKeys()
  {
  }

  lemma CertificateStored(store: Contents, dir: Dir, a: Attempt)
    requires StoreOk(store) && Admits(store, dir, a) && a.cut >= 13
    ensures var after := RunSpec(store, dir, a).0;
            && (a.certificate.Some? ==>
                  && TLSCertificate in after && after[TLSCertificate] == Text(a.certificate.value.0)
                  && TLSPrivateKey in after && after[TLSPrivateKey] == Text(a.certificate.value.1))
            && (a.certificate.None? ==>
                  forall k :: k == TLSCertificate || k == TLSPrivateKey ==>
                    (k in after <==> k in store) && (k in store ==> after[k] == store[k]))
  {
    MaterialByKey(store, dir, a);
    hide RunSpec, Material, Admits, StoreOk;
    var passed := StoredFrom(store, dir, a);
    assert TLSCertificate in passed && TLSPrivateKey in passed;
  }

  /** What a stored public host key must look like for the bundle to be written: a type and a blob. */
  lemma PublicLineDecides(store: Contents, dir: Dir, a: Attempt, line: string)
    requires Admits(store, dir, a) && a.cut >= 13
    requires SSHHostKeyPublic in store && store[SSHHostKeyPublic] == Text(line)
    ensures RunSpec(store, dir, a).1.manifest.Some? <==> |Fields(line)| >= 2
    ensures RunSpec(store, dir, a).1.compose.Some? <==> |Fields(line)| >= 2
  {
    hide *;
    AdmittedDir(store, dir, a);
    MaterialIsNew(store, dir, a);
    PublicIsKept(store, Material(store, dir, a), KeyOrder(), a.cut - 1);
    PublicLine(line);
    LineStopsOrNot(store, dir, a, StoreAll(store, Material(store, dir, a), KeyOrder(), a.cut - 1));
  }

  lemma LineStopsOrNot(store: Contents, dir: Dir, a: Attempt, p: Progress)
    requires Admits(store, dir, a) && a.cut > 0 && dir.compose.None? && dir.manifest.None?
    requires p == StoreAll(store, Material(store, dir, a), KeyOrder(), a.cut - 1)
    requires p.passed == |KeyOrder()| && p.left >= 3 && SSHHostKeyPublic in p.store
    ensures RunSpec(store, dir, a).1.manifest.Some? <==> LooksPublic(p.store[SSHHostKeyPublic])
    ensures RunSpec(store, dir, a).1.compose.Some? <==> LooksPublic(p.store[SSHHostKeyPublic])
  {
    hide KeyOrder, Generated, Admission, StoreAll, RecordedKeys, LooksPublic;
  }

  lemma PublicLine(line: string)
    ensures LooksPublic(Secret.Text(line)) <==> |Fields(line)| >= 2
  {
    hide Fields;
  }

  lemma PublicIsKept(store: Contents, material: Contents, order: seq<Key>, left: nat)
    requires SSHHostKeyPublic in store && Distinct(order) && left >= |order| + 3
    requires forall k :: k in material && !Rotates(k) ==> k !in store
    ensures var p := StoreAll(store, material, order, left);
            && p.passed == |order| && p.left >= 3
            && SSHHostKeyPublic in p.store && p.store[SSHHostKeyPublic] == store[SSHHostKeyPublic]
  {
    assert !Rotates(SSHHostKeyPublic);
    hide *;
    StoreAllKeeps(store, material, order, left);
    StoreAllEffect(store, material, order, left);
  }

  lemma MaterialIsNew(store: Contents, dir: Dir, a: Attempt)
    requires Admits(store, dir, a)
    ensures forall k :: k in Material(store, dir, a) && !Rotates(k) ==> k !in store
  {
    hide KeyOrder;
  }

  // Many directories, many keystores, any number of attempts.

  type Place = string

  /** `owner` is history, not state: which directory's run stored each identity key. */
  datatype World = World(
    stores: map<Target, Contents>, dirs: map<Place, Dir>, owner: map<(Target, Key), Place>)
  {
    function StoreOf(t: Target): Contents { if t in stores then stores[t] else map[] }

    function DirOf(p: Place): Dir { if p in dirs then dirs[p] else EMPTY_DIR }
  }

  const NOTHING := World(map[], map[], map[])

  datatype Move = Move(place: Place, attempt: Attempt)

  function Claims(before: Contents, after: Contents, t: Target, p: Place): map<(Target, Key), Place> {
    map k | k in Present(after) - Present(before) :: (t, k) := p
  }

  function Step(w: World, m: Move): World {
    var a := m.attempt;
    var (store', dir') := RunSpec(w.StoreOf(a.target), w.DirOf(m.place), a);
    World(w.stores[a.target := store'], w.dirs[m.place := dir'],
          w.owner + Claims(w.StoreOf(a.target), store', a.target, m.place))
  }

  function Run(w: World, moves: seq<Move>): World
    decreases |moves|
  {
    if moves == [] then w else Run(Step(w, moves[0]), moves[1..])
  }

  predicate Accepts(w: World, m: Move) {
    Admits(w.StoreOf(m.attempt.target), w.DirOf(m.place), m.attempt)
  }

  lemma {:induction false} RunKeeps(store: Contents, dir: Dir, a: Attempt)
    ensures store.Keys <= RunSpec(store, dir, a).0.Keys
    ensures forall k :: k in store && !Rotates(k) ==> RunSpec(store, dir, a).0[k] == store[k]
  {
    hide *;
    if Admits(store, dir, a) && a.cut > 0 {
      StoreAllKeeps(store, Material(store, dir, a), KeyOrder(), a.cut - 1);
    }
    RunStore(store, dir, a);
  }

  lemma RunStore(store: Contents, dir: Dir, a: Attempt)
    ensures RunSpec(store, dir, a).0 ==
            if Admits(store, dir, a) && a.cut > 0
            then StoreAll(store, Material(store, dir, a), KeyOrder(), a.cut - 1).store else store
  {
    hide KeyOrder, Generated, Inspect, StoreAll, LooksPublic, RecordedKeys, Publish;
  }

  /** A key that must not rotate keeps the value it was first stored with, in every
      world, over every sequence of attempts by anyone. */
  lemma {:induction false} IdentityNeverChanges(w: World, moves: seq<Move>, t: Target, k: Key)
    requires k in w.StoreOf(t) && k != TLSCertificate && k != TLSPrivateKey
    ensures k in Run(w, moves).StoreOf(t) && Run(w, moves).StoreOf(t)[k] == w.StoreOf(t)[k]
    decreases |moves|
  {
    if moves != [] {
      var m := moves[0];
      RunKeeps(w.StoreOf(m.attempt.target), w.DirOf(m.place), m.attempt);
      IdentityNeverChanges(Step(w, m), moves[1..], t, k);
    }
  }

  /** What holds of a directory in every reachable world. */
  ghost predicate DirOk(w: World, p: Place) {
    var d := w.DirOf(p);
    && RecordOk(d)
    && (d.manifest.Some? ==>
          && d.compose.Some?
          && IdentityKeys() <= w.StoreOf(d.manifest.value.target).Keys
          && SSHHostKeyPublic in w.StoreOf(d.manifest.value.target)
          && d.manifest.value.hostKeyPublic == w.StoreOf(d.manifest.value.target)[SSHHostKeyPublic])
    && (d.manifest.None? ==>
          d.record.Some? || forall t, k :: (t, k) in w.owner ==> w.owner[(t, k)] != p)
  }

  ghost predicate Reachable(w: World) {
    && (forall t :: StoreOk(w.StoreOf(t)))
    && (forall t, k :: (t, k) in w.owner <==> k in Present(w.StoreOf(t)))
    && (forall p :: DirOk(w, p))
  }

  lemma StepStores(w: World, m: Move)
    requires Reachable(w)
    ensures forall t :: StoreOk(Step(w, m).StoreOf(t))
    ensures forall t, k :: (t, k) in Step(w, m).owner <==> k in Present(Step(w, m).StoreOf(t))
    ensures forall t, k :: k in w.StoreOf(t) && !Rotates(k) ==>
              k in Step(w, m).StoreOf(t) && Step(w, m).StoreOf(t)[k] == w.StoreOf(t)[k]
  {
    var a := m.attempt;
    var store, dir := w.StoreOf(a.target), w.DirOf(m.place);
    assert StoreOk(store);
    hide *;
    RunKeeps(store, dir, a);
    RunStore(store, dir, a);
    if Admits(store, dir, a) && a.cut > 0 {
      ExecuteEffect(store, dir, a);
      OutcomeStore(store, a, RunSpec(store, dir, a).0, RunSpec(store, dir, a).1);
    }
    StepFrame(w, m, RunSpec(store, dir, a).0);
  }

  lemma OutcomeStore(store: Contents, a: Attempt, store': Contents, dir': Dir)
    requires Outcome(store, a, store', dir')
    ensures StoreOk(store')
  {
  }

  lemma StepFrame(w: World, m: Move, store': Contents)
    requires store' == RunSpec(w.StoreOf(m.attempt.target), w.DirOf(m.place), m.attempt).0
    requires Reachable(w) && StoreOk(store')
    requires w.StoreOf(m.attempt.target).Keys <= store'.Keys
    requires forall k :: k in w.StoreOf(m.attempt.target) && !Rotates(k) ==> store'[k] == w.StoreOf(m.attempt.target)[k]
    ensures forall t :: StoreOk(Step(w, m).StoreOf(t))
    ensures forall t, k :: (t, k) in Step(w, m).owner <==> k in Present(Step(w, m).StoreOf(t))
    ensures forall t, k :: k in w.StoreOf(t) && !Rotates(k) ==>
              k in Step(w, m).StoreOf(t) && Step(w, m).StoreOf(t)[k] == w.StoreOf(t)[k]
  {
    hide StoreOk, RunSpec, KeyOrder, Present, IsIdentity, DirOk;
    PresentGrows(w.StoreOf(m.attempt.target), store');
    forall t
      ensures StoreOk(Step(w, m).StoreOf(t))
    {
      assert StoreOk(w.StoreOf(t));
      assert Step(w, m).StoreOf(t) == if t == m.attempt.target then store' else w.StoreOf(t);
    }
  }

  lemma PresentGrows(before: Contents, after: Contents)
    requires before.Keys <= after.Keys
    ensures Present(before) <= Present(after)
  {
  }

  /** A directory the step is not about: its files stay, its targets only grow. */
  lemma OtherDirKept(w: World, m: Move, p: Place)
    requires Reachable(w) && p != m.place
    ensures DirOk(Step(w, m), p)
  {
    StepStores(w, m);
    StepElsewhere(w, m, p);
    assert DirOk(w, p);
    hide StoreOk, RunSpec, KeyOrder, Present, Step, Reachable;
    var d := w.DirOf(p);
    if d.manifest.Some? {
      HostPublicProtected(w, m, d.manifest.value.target);
    }
  }

  lemma StepElsewhere(w: World, m: Move, p: Place)
    requires p != m.place
    ensures Step(w, m).DirOf(p) == w.DirOf(p)
    ensures forall t, k :: (t, k) in Step(w, m).owner && Step(w, m).owner[(t, k)] == p ==>
              (t, k) in w.owner && w.owner[(t, k)] == p
  {
    hide RunSpec, Present;
  }

  lemma HostPublicProtected(w: World, m: Move, t: Target)
    requires Reachable(w) && SSHHostKeyPublic in w.StoreOf(t)
    ensures SSHHostKeyPublic in Step(w, m).StoreOf(t)
    ensures Step(w, m).StoreOf(t)[SSHHostKeyPublic] == w.StoreOf(t)[SSHHostKeyPublic]
    ensures w.StoreOf(t).Keys <= Step(w, m).StoreOf(t).Keys
  {
    StepStores(w, m);
    RunKeeps(w.StoreOf(m.attempt.target), w.DirOf(m.place), m.attempt);
    hide RunSpec, StoreOk, KeyOrder, Present;
  }

  lemma StepHere(w: World, m: Move)
    ensures var r := RunSpec(w.StoreOf(m.attempt.target), w.DirOf(m.place), m.attempt);
            Step(w, m).StoreOf(m.attempt.target) == r.0 && Step(w, m).DirOf(m.place) == r.1
  {
    hide RunSpec, Present;
  }

  lemma OutcomeDir(w: World, store: Contents, a: Attempt, p: Place)
    requires Outcome(store, a, w.StoreOf(a.target), w.DirOf(p))
    ensures DirOk(w, p)
  {
    hide StoreOk, IdentityKeys;
  }

  /** The directory the step ran in. */
  lemma OwnDirKept(w: World, m: Move)
    requires Reachable(w)
    ensures DirOk(Step(w, m), m.place)
  {
    var a := m.attempt;
    var store, dir := w.StoreOf(a.target), w.DirOf(m.place);
    assert StoreOk(store) && DirOk(w, m.place);
    hide *;
    StepHere(w, m);
    if Admits(store, dir, a) && a.cut > 0 {
      ExecuteEffect(store, dir, a);
      OutcomeDir(Step(w, m), store, a, m.place);
    } else {
      IdleStep(w, m);
      SameWorld(w, Step(w, m), m.place);
    }
  }

  lemma IdleStep(w: World, m: Move)
    requires !(Admits(w.StoreOf(m.attempt.target), w.DirOf(m.place), m.attempt) && m.attempt.cut > 0)
    ensures Step(w, m).owner == w.owner
    ensures forall t :: Step(w, m).StoreOf(t) == w.StoreOf(t)
    ensures forall p :: Step(w, m).DirOf(p) == w.DirOf(p)
  {
    IdleDir(w.StoreOf(m.attempt.target), w.DirOf(m.place), m.attempt);
    hide RunSpec, Admits, KeyOrder;
    assert Claims(w.StoreOf(m.attempt.target), w.StoreOf(m.attempt.target), m.attempt.target, m.place) == map[];
  }

  lemma SameWorld(w: World, v: World, p: Place)
    requires DirOk(w, p) && v.owner == w.owner
    requires forall t :: v.StoreOf(t) == w.StoreOf(t)
    requires forall q :: v.DirOf(q) == w.DirOf(q)
    ensures DirOk(v, p)
  {
    hide IdentityKeys;
  }

  lemma IdleDir(store: Contents, dir: Dir, a: Attempt)
    requires !(Admits(store, dir, a) && a.cut > 0)
    ensures RunSpec(store, dir, a) == (store, dir)
  {
    hide Inspect;
  }

  lemma StepReachable(w: World, m: Move)
    requires Reachable(w)
    ensures Reachable(Step(w, m))
  {
    StepStores(w, m);
    forall p
      ensures DirOk(Step(w, m), p)
    {
      if p == m.place {
        OwnDirKept(w, m);
      } else {
        OtherDirKept(w, m, p);
      }
    }
    hide Step, DirOk, StoreOk, Present;
  }

  lemma {:induction false} RunReachable(w: World, moves: seq<Move>)
    requires Reachable(w)
    ensures Reachable(Run(w, moves))
    decreases |moves|
  {
    hide Reachable, Step;
    if moves != [] {
      StepReachable(w, moves[0]);
      RunReachable(Step(w, moves[0]), moves[1..]);
    }
  }

  lemma NothingIsReachable()
    ensures Reachable(NOTHING)
  {
  }
}
