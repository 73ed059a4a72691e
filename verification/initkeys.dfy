/**
 `farrier init` as a crashable protocol over a keystore target and a bundle
 directory (internal/core/initialize, internal/core/keystore/guard.go).

 A run performs its effects in a fixed order and may stop before any of them:
 `cut` is how many it gets to perform, whatever stopped it (a crash, a cancelled
 context, or an effect that failed).
 */
module InitRun {
  import opened Prelude
  import opened Text

  datatype Key =
    | SecretKey | InternalToken | LFSJWTSecret | RunnerSecret
    | TLSCertificate | TLSPrivateKey
    | SSHHostKey | SSHHostKeyPublic
    | AgeBackupKey
    | OtherKey(name: string)

  /** keyMaterialOrder: the order key material is stored in. */
  function KeyOrder(): (order: seq<Key>)
    ensures Distinct(order) && forall k :: k in order <==> !k.OtherKey?
    ensures |order| == 9 && order[6] == SSHHostKey && order[7] == SSHHostKeyPublic
  {
    [SecretKey, InternalToken, LFSJWTSecret, RunnerSecret, TLSCertificate, TLSPrivateKey,
     SSHHostKey, SSHHostKeyPublic, AgeBackupKey]
  }

  /** Fail-closed: a name nobody declared rotating is protected. */
  predicate Rotates(k: Key) {
    k == TLSCertificate || k == TLSPrivateKey
  }

  predicate IsIdentity(k: Key) {
    !k.OtherKey? && !Rotates(k)
  }

  function IdentityKeys(): set<Key> {
    set k | k in KeyOrder() && !Rotates(k)
  }

  /** Key material, with the one algebraic fact init relies on: a host key's public
      half is determined by its private half. */
  datatype Secret = Text(bytes: string) | HostKey(seed: int) | HostKeyPublic(seed: int)

  function PublicHalf(s: Secret): Option<Secret> {
    if s.HostKey? then Some(HostKeyPublic(s.seed)) else None
  }

  /** bundle.SplitSSHPublicKey's test: at least two fields. */
  predicate LooksPublic(s: Secret) {
    s.Text? ==> |Fields(s.bytes)| >= 2
  }

  type Contents = map<Key, Secret>

  /** A keystore driver reference, name and configuration together; its fingerprint
      is taken to tell targets apart. */
  type Target = string

  datatype Record = Record(target: Target, keys: set<Key>)

  datatype Manifest = Manifest(target: Target, hostKeyPublic: Secret)

  datatype Dir = Dir(record: Option<Record>, compose: Option<string>, manifest: Option<Manifest>)

  const EMPTY_DIR := Dir(None, None, None)

  /** What one invocation brings: its target, what it would generate, the certificate
      of a named bundle, its rendered Compose, and how far it gets. */
  datatype Attempt = Attempt(
    target: Target, secretKey: string, internalToken: string, lfsSecret: string, runnerSecret: string,
    hostSeed: int, ageKey: string, certificate: Option<(string, string)>, compose: string, cut: nat)

  // The rotation guard.

  datatype StoreOutcome = Stored | AlreadyExists | Unconfirmed | DriverFailed

  class Keystore {
    var contents: Contents

    /** guardedDriver.Store; `readable` and `writable` are what the wrapped driver's
        Resolve and Store do. Only a positive "not found" lets a protected key be written. */
    method Store(k: Key, secret: Secret, readable: bool, writable: bool) returns (r: StoreOutcome)
      modifies this
      ensures k != TLSCertificate && k != TLSPrivateKey ==>
                r == if !readable then Unconfirmed else if k in old(contents) then AlreadyExists
                     else if writable then Stored else DriverFailed
      ensures k == TLSCertificate || k == TLSPrivateKey ==> r == if writable then Stored else DriverFailed
      ensures contents == if r == Stored then old(contents)[k := secret] else old(contents)
    {
      if !Rotates(k) {
        if !readable {
          return Unconfirmed;
        }
        if k in contents {
          return AlreadyExists;
        }
      }
      if !writable {
        return DriverFailed;
      }
      contents := contents[k := secret];
      return Stored;
    }
  }

  // Preflight.

  datatype Refusal = HoldsBundle | Conflict(keys: set<Key>) | StrayPublicHalf | UnreadableHostKey

  datatype Preflight = Preflight(reuse: set<Key>, derived: Contents)

  function Recorded(dir: Dir, target: Target): set<Key> {
    if dir.record.Some? && dir.record.value.target == target then dir.record.value.keys else {}
  }

  function Present(store: Contents): set<Key> {
    set k | k in store && IsIdentity(k)
  }

  function RepairPair(store: Contents, reuse: set<Key>): Result<Preflight, Refusal>
    requires reuse <= store.Keys
  {
    var private, public := SSHHostKey in reuse, SSHHostKeyPublic in reuse;
    if private == public then Ok(Preflight(reuse, map[]))
    else if public then Err(StrayPublicHalf)
    else
      var half := PublicHalf(store[SSHHostKey]);
      if half.Some? then Ok(Preflight(reuse, map[SSHHostKeyPublic := half.value])) else Err(UnreadableHostKey)
  }

  function Inspect(store: Contents, dir: Dir, target: Target): Result<Preflight, Refusal> {
    if Present(store) - Recorded(dir, target) != {} then Err(Conflict(Present(store) - Recorded(dir, target)))
    else RepairPair(store, Present(store))
  }

  /** What a keystore meets, told by its keys: any identity key the record of this target does not name is
      a conflict and listed; short of that only a broken host key pair refuses, and a missing public half
      is that of the private one. */
  lemma InspectExactly(store: Contents, dir: Dir, target: Target)
    ensures var r := Inspect(store, dir, target);
            var protected := set k | k in store && !k.OtherKey? && k != TLSCertificate && k != TLSPrivateKey;
            var foreign := set k | k in protected && !(dir.record.Some? && dir.record.value.target == target
                                                       && k in dir.record.value.keys);
            && (foreign != {} ==> r == Err(Conflict(foreign)))
            && (foreign == {} && SSHHostKey in store && SSHHostKeyPublic !in store ==>
                  r == match store[SSHHostKey]
                       case HostKey(seed) => Ok(Preflight(protected, map[SSHHostKeyPublic := HostKeyPublic(seed)]))
                       case _ => Err(UnreadableHostKey))
            && (foreign == {} && SSHHostKey !in store && SSHHostKeyPublic in store ==> r == Err(StrayPublicHalf))
            && (foreign == {} && (SSHHostKey in store <==> SSHHostKeyPublic in store) ==>
                  r == Ok(Preflight(protected, map[])))
  {
    var protected := set k | k in store && !k.OtherKey? && k != TLSCertificate && k != TLSPrivateKey;
    assert Present(store) == protected;
    assert Present(store) - Recorded(dir, target) ==
           set k | k in protected && !(dir.record.Some? && dir.record.value.target == target
                                       && k in dir.record.value.keys);
  }

  /** One pass over the names: what is there and accounted for, and what is there and not. */
  method Classify(order: seq<Key>, store: Contents, recorded: set<Key>) returns (reuse: set<Key>, conflicts: set<Key>)
    ensures reuse == set k | k in order && !Rotates(k) && k in store && k in recorded
    ensures conflicts == set k | k in order && !Rotates(k) && k in store && k !in recorded
  {
    reuse, conflicts := {}, {};
    for i := 0 to |order|
      invariant reuse == set k | k in order[..i] && !Rotates(k) && k in store && k in recorded
      invariant conflicts == set k | k in order[..i] && !Rotates(k) && k in store && k !in recorded
    {
      var name := order[i];
      assert order[..i + 1] == order[..i] + [name];
      if !Rotates(name) && name in store {
        if name in recorded {
          reuse := reuse + {name};
        } else {
          conflicts := conflicts + {name};
        }
      }
    }
    assert order[..|order|] == order;
  }

  method InspectKeystore(store: Contents, dir: Dir, target: Target) returns (r: Result<Preflight, Refusal>)
    ensures r == Inspect(store, dir, target)
  {
    hide KeyOrder, RepairPair;
    var reuse, conflicts := Classify(KeyOrder(), store, Recorded(dir, target));
    assert conflicts == Present(store) - Recorded(dir, target);
    if conflicts != {} {
      return Err(Conflict(conflicts));
    }
    forall k | k in Present(store)
      ensures k in Recorded(dir, target)
    {
      assert k !in conflicts;
    }
    assert reuse == Present(store);
    r := RepairPair(store, reuse);
  }

  // Generation.

  function Fresh(a: Attempt, k: Key): Secret {
    match k
    case SecretKey => Text(a.secretKey)
    case InternalToken => Text(a.internalToken)
    case LFSJWTSecret => Text(a.lfsSecret)
    case RunnerSecret => Text(a.runnerSecret)
    case SSHHostKey => HostKey(a.hostSeed)
    case SSHHostKeyPublic => HostKeyPublic(a.hostSeed)
    case AgeBackupKey => Text(a.ageKey)
    case TLSCertificate => if a.certificate.Some? then Text(a.certificate.value.0) else Text("")
    case TLSPrivateKey => if a.certificate.Some? then Text(a.certificate.value.1) else Text("")
    case OtherKey(_) => Text("")
  }

  /** A reused name is not generated, and a host key pair only as a pair. */
  predicate Wanted(k: Key, reuse: set<Key>, a: Attempt) {
    match k
    case TLSCertificate => a.certificate.Some?
    case TLSPrivateKey => a.certificate.Some?
    case SSHHostKey => SSHHostKey !in reuse && SSHHostKeyPublic !in reuse
    case SSHHostKeyPublic => SSHHostKey !in reuse && SSHHostKeyPublic !in reuse
    case OtherKey(_) => false
    case _ => k !in reuse
  }

  function Generated(reuse: set<Key>, a: Attempt): Contents {
    Chosen(Names(KeyOrder()), reuse, a)
  }

  function Names(order: seq<Key>): set<Key> {
    set k | k in order
  }

  function Chosen(names: set<Key>, reuse: set<Key>, a: Attempt): Contents {
    map k | k in names && Wanted(k, reuse, a) :: Fresh(a, k)
  }

  lemma ChosenAdd(names: set<Key>, k: Key, reuse: set<Key>, a: Attempt)
    ensures Chosen(names + {k}, reuse, a) ==
            if Wanted(k, reuse, a) then Chosen(names, reuse, a)[k := Fresh(a, k)] else Chosen(names, reuse, a)
  {
  }

  method GenerateRandom(names: seq<Key>, reuse: set<Key>, a: Attempt) returns (material: Contents)
    requires forall k :: k in names ==> k == SecretKey || k == InternalToken || k == LFSJWTSecret
    ensures material == Chosen(Names(names), reuse, a)
    ensures forall k :: k in material <==> k in names && k !in reuse
    ensures SecretKey in material ==> material[SecretKey] == Text(a.secretKey)
    ensures InternalToken in material ==> material[InternalToken] == Text(a.internalToken)
    ensures LFSJWTSecret in material ==> material[LFSJWTSecret] == Text(a.lfsSecret)
  {
    material := map[];
    for i := 0 to |names|
      invariant material == Chosen(Names(names[..i]), reuse, a)
    {
      ghost var done := Names(names[..i]);
      assert Names(names[..i + 1]) == done + {names[i]} by {
        assert names[..i + 1] == names[..i] + [names[i]];
      }
      ChosenAdd(done, names[i], reuse, a);
      assert names[i] in names && (Wanted(names[i], reuse, a) <==> names[i] !in reuse);
      if names[i] !in reuse {
        material := material[names[i] := Fresh(a, names[i])];
      }
    }
    assert names[..|names|] == names;
  }

  /** What is generated, name by name: each secret of its own, a host key pair of one seed and only when
      neither half is reused, a certificate with its own key. */
  lemma GeneratedByKey(reuse: set<Key>, a: Attempt)
    ensures var m := Generated(reuse, a);
            && (forall k :: k in m ==> !k.OtherKey?)
            && (SecretKey !in reuse <==> SecretKey in m)
            && (SecretKey in m ==> m[SecretKey] == Text(a.secretKey))
            && (InternalToken !in reuse <==> InternalToken in m)
            && (InternalToken in m ==> m[InternalToken] == Text(a.internalToken))
            && (LFSJWTSecret !in reuse <==> LFSJWTSecret in m)
            && (LFSJWTSecret in m ==> m[LFSJWTSecret] == Text(a.lfsSecret))
            && (RunnerSecret !in reuse <==> RunnerSecret in m)
            && (RunnerSecret in m ==> m[RunnerSecret] == Text(a.runnerSecret))
            && (AgeBackupKey !in reuse <==> AgeBackupKey in m)
            && (AgeBackupKey in m ==> m[AgeBackupKey] == Text(a.ageKey))
            && (SSHHostKey !in reuse && SSHHostKeyPublic !in reuse <==> SSHHostKey in m)
            && (SSHHostKey in m <==> SSHHostKeyPublic in m)
            && (SSHHostKey in m ==>
                  m[SSHHostKey] == HostKey(a.hostSeed) && m[SSHHostKeyPublic] == HostKeyPublic(a.hostSeed))
            && (a.certificate.Some? <==> TLSCertificate in m)
            && (TLSCertificate in m <==> TLSPrivateKey in m)
            && (TLSCertificate in m ==>
                  && m[TLSCertificate] == Text(a.certificate.value.0)
                  && m[TLSPrivateKey] == Text(a.certificate.value.1))
  {
    hide KeyOrder;
  }

  const RANDOM: set<Key> := {SecretKey, InternalToken, LFSJWTSecret}

  lemma RunnerGroup(names: set<Key>, reuse: set<Key>, a: Attempt)
    ensures Chosen(names + {RunnerSecret}, reuse, a) ==
            var m := Chosen(names, reuse, a);
            if RunnerSecret !in reuse then m[RunnerSecret := Text(a.runnerSecret)] else m
  {
    ChosenAdd(names, RunnerSecret, reuse, a);
    hide Chosen;
  }

  lemma HostKeyGroup(names: set<Key>, reuse: set<Key>, a: Attempt)
    ensures Chosen(names + {SSHHostKey} + {SSHHostKeyPublic}, reuse, a) ==
            var m := Chosen(names, reuse, a);
            if SSHHostKey !in reuse && SSHHostKeyPublic !in reuse
            then m[SSHHostKey := HostKey(a.hostSeed)][SSHHostKeyPublic := HostKeyPublic(a.hostSeed)] else m
  {
    ChosenAdd(names, SSHHostKey, reuse, a);
    ChosenAdd(names + {SSHHostKey}, SSHHostKeyPublic, reuse, a);
    hide Chosen;
  }

  lemma AgeGroup(names: set<Key>, reuse: set<Key>, a: Attempt)
    ensures Chosen(names + {AgeBackupKey}, reuse, a) ==
            var m := Chosen(names, reuse, a);
            if AgeBackupKey !in reuse then m[AgeBackupKey := Text(a.ageKey)] else m
  {
    ChosenAdd(names, AgeBackupKey, reuse, a);
    hide Chosen;
  }

  lemma CertificateGroup(names: set<Key>, reuse: set<Key>, a: Attempt)
    ensures Chosen(names + {TLSCertificate} + {TLSPrivateKey}, reuse, a) ==
            var m := Chosen(names, reuse, a);
            if a.certificate.Some?
            then m[TLSCertificate := Text(a.certificate.value.0)][TLSPrivateKey := Text(a.certificate.value.1)] else m
  {
    ChosenAdd(names, TLSCertificate, reuse, a);
    ChosenAdd(names + {TLSCertificate}, TLSPrivateKey, reuse, a);
    hide Chosen;
  }

  lemma GroupsAreAll()
    ensures RANDOM + {RunnerSecret} + {SSHHostKey} + {SSHHostKeyPublic} + {AgeBackupKey}
            + {TLSCertificate} + {TLSPrivateKey} == Names(KeyOrder())
    ensures Names([SecretKey, InternalToken, LFSJWTSecret]) == RANDOM
  {
  }

  method GenerateKeyMaterial(reuse: set<Key>, a: Attempt) returns (material: Contents)
    ensures material == Generated(reuse, a)
  {
    hide KeyOrder, Chosen, Names, RANDOM;
    GroupsAreAll();
    material := GenerateRandom([SecretKey, InternalToken, LFSJWTSecret], reuse, a);
    RunnerGroup(RANDOM, reuse, a);
    if RunnerSecret !in reuse {
      material := material[RunnerSecret := Text(a.runnerSecret)];
    }
    ghost var done := RANDOM + {RunnerSecret};
    HostKeyGroup(done, reuse, a);
    if SSHHostKey !in reuse && SSHHostKeyPublic !in reuse {
      material := material[SSHHostKey := HostKey(a.hostSeed)][SSHHostKeyPublic := HostKeyPublic(a.hostSeed)];
    }
    done := done + {SSHHostKey} + {SSHHostKeyPublic};
    AgeGroup(done, reuse, a);
    if AgeBackupKey !in reuse {
      material := material[AgeBackupKey := Text(a.ageKey)];
    }
    done := done + {AgeBackupKey};
    CertificateGroup(done, reuse, a);
    if a.certificate.Some? {
      material := material[TLSCertificate := Text(a.certificate.value.0)][TLSPrivateKey := Text(a.certificate.value.1)];
    }
  }

  // Storing.

  /** How far storing `order` got: the keystore, the effects left, the names passed. */
  datatype Progress = Progress(store: Contents, left: nat, passed: nat)

  function StoreAll(store: Contents, material: Contents, order: seq<Key>, left: nat): (p: Progress)
    ensures p.passed <= |order|
    decreases |order|
  {
    if order == [] then Progress(store, left, 0)
    else
      var k := order[0];
      if k !in material then Later(StoreAll(store, material, order[1..], left))
      else if left == 0 || (!Rotates(k) && k in store) then Progress(store, left, 0)
      else Later(StoreAll(store[k := material[k]], material, order[1..], left - 1))
  }

  function Later(p: Progress): Progress {
    p.(passed := p.passed + 1)
  }

  method StoreInOrder(ks: Keystore, order: seq<Key>, material: Contents, budget: nat)
    returns (left: nat, complete: bool)
    modifies ks
    ensures var p := StoreAll(old(ks.contents), material, order, budget);
            ks.contents == p.store && left == p.left && (complete <==> p.passed == |order|)
  {
    left := budget;
    ghost var whole := StoreAll(ks.contents, material, order, budget);
    for i := 0 to |order|
      invariant var p := StoreAll(ks.contents, material, order[i..], left);
                p.store == whole.store && p.left == whole.left && i + p.passed == whole.passed
    {
      var name := order[i];
      assert order[i..][0] == name && order[i..][1..] == order[i + 1..];
      if name in material {
        if left == 0 {
          return left, false;
        }
        var outcome := ks.Store(name, material[name], true, true);
        if outcome != Stored {
          return left, false;
        }
        left := left - 1;
      }
    }
    complete := true;
  }

  method StoreKeyMaterial(ks: Keystore, material: Contents, budget: nat) returns (left: nat, complete: bool)
    modifies ks
    ensures var p := StoreAll(old(ks.contents), material, KeyOrder(), budget);
            ks.contents == p.store && left == p.left && (complete <==> p.passed == |KeyOrder()|)
  {
    left, complete := StoreInOrder(ks, KeyOrder(), material, budget);
  }

  // The run.

  function RecordedKeys(material: Contents, reuse: set<Key>): set<Key> {
    set k | k in KeyOrder() && !Rotates(k) && (k in material || k in reuse)
  }

  function Publish(store: Contents, dir: Dir, a: Attempt, left: nat): Dir
    requires SSHHostKeyPublic in store
  {
    var installed := if left >= 1 then dir.(compose := Some(a.compose)) else dir;
    var manifest := Manifest(a.target, store[SSHHostKeyPublic]);
    var named := if left >= 2 then installed.(manifest := Some(manifest)) else installed;
    if left >= 3 then named.(record := None) else named
  }

  function Execute(store: Contents, dir: Dir, a: Attempt, found: Preflight): (Contents, Dir) {
    if a.cut == 0 then (store, dir)
    else
      var material := Generated(found.reuse, a) + found.derived;
      var recorded := dir.(record := Some(Record(a.target, RecordedKeys(material, found.reuse))));
      var p := StoreAll(store, material, KeyOrder(), a.cut - 1);
      if p.passed < |KeyOrder()| || SSHHostKeyPublic !in p.store || !LooksPublic(p.store[SSHHostKeyPublic])
      then (p.store, recorded)
      else (p.store, Publish(p.store, recorded, a, p.left))
  }

  function Admission(store: Contents, dir: Dir, a: Attempt): Result<Preflight, Refusal> {
    if dir.compose.Some? || dir.manifest.Some? then Err(HoldsBundle) else Inspect(store, dir, a.target)
  }

  predicate Admits(store: Contents, dir: Dir, a: Attempt) {
    Admission(store, dir, a).Ok?
  }

  function RunSpec(store: Contents, dir: Dir, a: Attempt): (Contents, Dir) {
    var found := Admission(store, dir, a);
    if found.Err? then (store, dir) else Execute(store, dir, a, found.value)
  }

  class BundleDir {
    var record: Option<Record>
    var compose: Option<string>
    var manifest: Option<Manifest>

    function View(): Dir
      reads this
    {
      Dir(record, compose, manifest)
    }

    method Run(ks: Keystore, a: Attempt) returns (refused: Option<Refusal>)
      modifies this, ks
      ensures (ks.contents, View()) == RunSpec(old(ks.contents), old(View()), a)
      ensures refused.None? <==> Admits(old(ks.contents), old(View()), a)
      ensures refused.Some? ==> ks.contents == old(ks.contents) && View() == old(View())
    {
      hide KeyOrder, Generated, StoreAll, Inspect, LooksPublic, RecordedKeys;
      if compose.Some? || manifest.Some? {
        return Some(HoldsBundle);
      }
      var found := InspectKeystore(ks.contents, View(), a.target);
      if found.Err? {
        return Some(found.error);
      }
      refused := None;
      var material := GenerateKeyMaterial(found.value.reuse, a);
      material := material + found.value.derived;
      if a.cut == 0 {
        return;
      }
      record := Some(Record(a.target, RecordedKeys(material, found.value.reuse)));
      var left, complete := StoreKeyMaterial(ks, material, a.cut - 1);
      if !complete || SSHHostKeyPublic !in ks.contents || !LooksPublic(ks.contents[SSHHostKeyPublic]) {
        return;
      }
      if left >= 1 {
        compose := Some(a.compose);
      }
      if left >= 2 {
        manifest := Some(Manifest(a.target, ks.contents[SSHHostKeyPublic]));
      }
      if left >= 3 {
        record := None;
      }
    }
  }
}
