/** Which attempts of `init` put new identity keys into their target, told from what is there before. */
module InitGuard {
  import opened Prelude
  import opened InitRun
  import opened InitProofs

  /** How many rotating keys are stored ahead of the first identity key there is to store. */
  function Ahead(order: seq<Key>, material: Contents): nat {
    if order == [] || (order[0] in material && !Rotates(order[0])) then 0
    else (if order[0] in material then 1 else 0) + Ahead(order[1..], material)
  }

  ghost predicate HasIdentity(order: seq<Key>, material: Contents) {
    exists k :: k in order && k in material && !Rotates(k)
  }

  ghost predicate AddsIdentity(store: Contents, after: Contents) {
    exists k :: k in after && k !in store && !Rotates(k)
  }

  /** Storing gets to an identity key exactly when it may make more stores than lie ahead of one. */
  lemma {:induction false} AddsExactly(store: Contents, material: Contents, order: seq<Key>, left: nat)
    requires Distinct(order)
    requires forall k :: k in order && k in material && !Rotates(k) ==> k !in store
    ensures AddsIdentity(store, StoreAll(store, material, order, left).store)
            <==> HasIdentity(order, material) && left > Ahead(order, material)
    decreases |order|
  {
    if order != [] {
      var k, rest := order[0], order[1..];
      DistinctRest(order);
      assert order == [k] + rest;
      hide Rotates, Distinct;
      if k !in material {
        AddsExactly(store, material, rest, left);
      } else if Rotates(k) {
        if left > 0 {
          AddsExactly(store[k := material[k]], material, rest, left - 1);
        }
      } else if left > 0 {
        StoreAllKeeps(store[k := material[k]], material, rest, left - 1);
      }
    }
  }

  /** What an admitted run would store: the identity keys not there, and a certificate it brings. */
  lemma MaterialHolds(store: Contents, dir: Dir, a: Attempt)
    requires StoreOk(store) && Admits(store, dir, a)
    ensures forall k :: !Rotates(k) ==> (k in Material(store, dir, a) <==> IsIdentity(k) && k !in store)
    ensures forall k :: Rotates(k) ==> (k in Material(store, dir, a) <==> a.certificate.Some?)
  {
    AdmittedMaterial(store, dir, a);
    var found := Admission(store, dir, a).value;
    assert forall k :: k in KeyOrder() <==> !k.OtherKey?;
    hide KeyOrder;
    assert forall k :: k in found.derived ==> k == SSHHostKeyPublic;
    assert forall k :: k in Generated(found.reuse, a) <==> !k.OtherKey? && Wanted(k, found.reuse, a);
  }

  /** Material as MaterialHolds describes it, over the nine names in order. */
  lemma AheadOfFirst(store: Contents, material: Contents, certificate: bool)
    requires PrefixClosed(store, KeyOrder())
    requires forall k :: !Rotates(k) ==> (k in material <==> IsIdentity(k) && k !in store)
    requires forall k :: Rotates(k) ==> (k in material <==> certificate)
    ensures HasIdentity(KeyOrder(), material) <==> Present(store) != IdentityKeys()
    ensures Present(store) != IdentityKeys() ==>
              Ahead(KeyOrder(), material) == if certificate && RunnerSecret in store then 2 else 0
  {
    MissingIsMaterial(store, material);
    if Present(store) != IdentityKeys() {
      ForgeKeysFirst(store);
      hide PrefixClosed, Present, IdentityKeys, HasIdentity;
      var order := KeyOrder();
      AheadUnfolds(order, material);
      AheadAfterForgeKeys(order[4..], store, material, certificate);
    }
  }

  lemma MissingIsMaterial(store: Contents, material: Contents)
    requires forall k :: !Rotates(k) ==> (k in material <==> IsIdentity(k) && k !in store)
    ensures HasIdentity(KeyOrder(), material) <==> Present(store) != IdentityKeys()
  {
    hide KeyOrder;
    if k :| k in KeyOrder() && k in material && !Rotates(k) {
      assert k in IdentityKeys() && k !in Present(store);
    }
    if Present(store) != IdentityKeys() {
      assert Present(store) <= IdentityKeys();
      var k :| k in IdentityKeys() - Present(store);
      assert k in KeyOrder() && k in material;
    }
  }

  /** The forge's own four keys come first, and the runner's last among them. */
  lemma ForgeKeysFirst(store: Contents)
    requires PrefixClosed(store, KeyOrder())
    ensures RunnerSecret in store ==> SecretKey in store && InternalToken in store && LFSJWTSecret in store
    ensures Present(store) != IdentityKeys() && RunnerSecret in store ==>
              SSHHostKey !in store || SSHHostKeyPublic !in store || AgeBackupKey !in store
  {
    var order := KeyOrder();
    assert order[0] == SecretKey && order[1] == InternalToken && order[2] == LFSJWTSecret && order[3] == RunnerSecret;
    if RunnerSecret in store && SSHHostKey in store && SSHHostKeyPublic in store && AgeBackupKey in store {
      assert forall k :: IsIdentity(k) ==> k in store;
    }
  }

  lemma AheadUnfolds(order: seq<Key>, material: Contents)
    requires order == KeyOrder()
    ensures order[4..] == [TLSCertificate, TLSPrivateKey, SSHHostKey, SSHHostKeyPublic, AgeBackupKey]
    ensures Ahead(order, material) ==
            if SecretKey in material || InternalToken in material || LFSJWTSecret in material
               || RunnerSecret in material
            then 0 else Ahead(order[4..], material)
  {
    var a := order[1..];
    var b := a[1..];
    var c := b[1..];
    assert order[4..] == c[1..];
    assert a[0] == InternalToken && b[0] == LFSJWTSecret && c[0] == RunnerSecret;
    assert Ahead(c, material) == if RunnerSecret in material then 0 else Ahead(c[1..], material);
    assert Ahead(b, material) == if LFSJWTSecret in material then 0 else Ahead(c, material);
    assert Ahead(a, material) == if InternalToken in material then 0 else Ahead(b, material);
  }

  lemma AheadAfterForgeKeys(order: seq<Key>, store: Contents, material: Contents, certificate: bool)
    requires order == [TLSCertificate, TLSPrivateKey, SSHHostKey, SSHHostKeyPublic, AgeBackupKey]
    requires forall k :: Rotates(k) ==> (k in material <==> certificate)
    ensures SSHHostKey in material || SSHHostKeyPublic in material || AgeBackupKey in material ==>
              Ahead(order, material) == if certificate then 2 else 0
  {
    var a := order[1..];
    var b := a[1..];
    var c := b[1..];
    var d := c[1..];
    assert a[0] == TLSPrivateKey && b[0] == SSHHostKey && c[0] == SSHHostKeyPublic && d == [AgeBackupKey];
    assert AgeBackupKey in material ==> Ahead(d, material) == 0;
    assert SSHHostKeyPublic in material || AgeBackupKey in material ==> Ahead(c, material) == 0;
    assert SSHHostKey in material || SSHHostKeyPublic in material || AgeBackupKey in material ==>
             Ahead(b, material) == 0;
    assert Ahead(a, material) == (if certificate then 1 else 0) + Ahead(b, material);
  }

  /** An attempt that would be admitted puts a new identity key in place exactly when one is missing and
      it gets past its record and the stores ahead of the first: a new certificate's two, once the
      forge's own keys are there. */
  predicate ReachesIdentity(store: Contents, a: Attempt) {
    Present(store) != IdentityKeys()
    && a.cut >= 2 + if a.certificate.Some? && RunnerSecret in store then 2 else 0
  }

  lemma ReachingIs(store: Contents, a: Attempt)
    ensures ReachesIdentity(store, a) <==>
            Present(store) != IdentityKeys()
            && a.cut >= 2 + if a.certificate.Some? && RunnerSecret in store then 2 else 0
  {
  }

  lemma OkIsPrefix(store: Contents)
    requires StoreOk(store)
    ensures PrefixClosed(store, KeyOrder())
  {
  }

  lemma StoresExactly(store: Contents, dir: Dir, a: Attempt)
    requires StoreOk(store) && Admits(store, dir, a) && a.cut > 0
    ensures AddsIdentity(store, RunSpec(store, dir, a).0) <==> ReachesIdentity(store, a)
  {
    hide *;
    var material := Material(store, dir, a);
    OkIsPrefix(store);
    MaterialHolds(store, dir, a);
    AheadOfFirst(store, material, a.certificate.Some?);
    AddsExactly(store, material, KeyOrder(), a.cut - 1);
    RunStore(store, dir, a);
    ReachingIs(store, a);
  }
}
