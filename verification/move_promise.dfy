/** The results about `Move` itself, over the objects the source cluster holds. */
module MovePromise {
  import opened Wrappers
  import opened Move
  import opened MoveRollback
  import opened MoveSuccess
  import opened MoveClient

  ghost predicate Scoped(w: World, namespace: string, key: Key) {
    && key in w.source && (key.kind == HTTPBootConfig || key.kind == IPXEBootConfig)
    && (namespace == "" || key.namespace == namespace)
  }

  ghost predicate UniqueUids(store: map<Key, Object>) {
    forall k1, k2 :: k1 in store && k2 in store && k1 != k2 ==> store[k1].uid != store[k2].uid
  }

  /** The listed CRs are stored ones, in scope. */
  lemma ListedStored(w: World, namespace: string, https: seq<Object>, ipxes: seq<Object>, i: nat)
    requires Lists(w.source, HTTPBootConfig, namespace, https) && Lists(w.source, IPXEBootConfig, namespace, ipxes)
    requires i < |https + ipxes|
    ensures var cr := (https + ipxes)[i]; Scoped(w, namespace, cr.key) && w.source[cr.key] == cr
  {
    assert (https + ipxes)[i] == if i < |https| then https[i] else ipxes[i - |https|];
  }

  lemma ListedDistinct(w: World, namespace: string, https: seq<Object>, ipxes: seq<Object>, i: nat, j: nat)
    requires Lists(w.source, HTTPBootConfig, namespace, https) && Lists(w.source, IPXEBootConfig, namespace, ipxes)
    requires i < j < |https + ipxes|
    ensures (https + ipxes)[i].key != (https + ipxes)[j].key
  {
    assert (https + ipxes)[i] == if i < |https| then https[i] else ipxes[i - |https|];
    assert (https + ipxes)[j] == if j < |https| then https[j] else ipxes[j - |https|];
  }

  /** Every CR in scope is listed. */
  lemma ListedAll(w: World, namespace: string, https: seq<Object>, ipxes: seq<Object>, key: Key) returns (i: nat)
    requires Lists(w.source, HTTPBootConfig, namespace, https) && Lists(w.source, IPXEBootConfig, namespace, ipxes)
    requires Scoped(w, namespace, key)
    ensures i < |https + ipxes| && (https + ipxes)[i].key == key
  {
    if key.kind == HTTPBootConfig {
      i :| 0 <= i < |https| && https[i].key == key;
    } else {
      var k :| 0 <= k < |ipxes| && ipxes[k].key == key;
      i := |https| + k;
    }
  }

  lemma ListedCrs(w: World, namespace: string, https: seq<Object>, ipxes: seq<Object>)
    requires Lists(w.source, HTTPBootConfig, namespace, https) && Lists(w.source, IPXEBootConfig, namespace, ipxes)
    requires Consistent(w.source) && UniqueUids(w.source)
    ensures Listing(https + ipxes)
    ensures forall i :: 0 <= i < |https + ipxes| ==>
      (https + ipxes)[i].key in w.source && w.source[(https + ipxes)[i].key] == (https + ipxes)[i]
    ensures forall key :: Scoped(w, namespace, key) <==>
      exists i :: 0 <= i < |https + ipxes| && (https + ipxes)[i].key == key && key in w.source
                  && w.source[key] == (https + ipxes)[i]
  {
    var crs := https + ipxes;
    forall i | 0 <= i < |crs| ensures Scoped(w, namespace, crs[i].key) && w.source[crs[i].key] == crs[i] {
      ListedStored(w, namespace, https, ipxes, i);
    }
    forall i, j | 0 <= i < j < |crs| ensures crs[i].key != crs[j].key {
      ListedDistinct(w, namespace, https, ipxes, i, j);
    }
    forall key | Scoped(w, namespace, key) ensures exists i :: 0 <= i < |crs| && crs[i].key == key {
      var i := ListedAll(w, namespace, https, ipxes, key);
    }
  }

  /** The CRs of the namespace can be moved, as the plan sees it. */
  ghost predicate MovableBy(w: World, namespace: string, requireOwners: bool) {
    && (forall key :: Scoped(w, namespace, key) ==> Plannable(w, w.source[key]))
    && (forall k1, k2 | Scoped(w, namespace, k1) && Scoped(w, namespace, k2) && k1 != k2 ::
          BringsSecret(w, w.source[k1]) && BringsSecret(w, w.source[k2]) ==>
            NeededSecret(w.source[k1]) != NeededSecret(w.source[k2]))
    && (requireOwners ==> forall key :: Scoped(w, namespace, key) && key !in w.target && Owned(w.source[key]) ==>
          OwnerKey(w.source[key]) in w.target)
  }

  lemma MovableIff(w: World, namespace: string, requireOwners: bool, crs: seq<Object>)
    requires Listing(crs)
    requires forall key :: Scoped(w, namespace, key) <==>
      exists i :: 0 <= i < |crs| && crs[i].key == key && key in w.source && w.source[key] == crs[i]
    requires forall i :: 0 <= i < |crs| ==> crs[i].key in w.source && w.source[crs[i].key] == crs[i]
    ensures MovableBy(w, namespace, requireOwners) <==>
      AllPlannable(w, crs) && NoSharedSecret(w, crs) && (requireOwners ==> OwnersPresent(w, crs))
  {
    forall i | 0 <= i < |crs| ensures Scoped(w, namespace, crs[i].key) {}
    if NoSharedSecret(w, crs) {
      forall k1, k2 | Scoped(w, namespace, k1) && Scoped(w, namespace, k2) && k1 != k2
          && BringsSecret(w, w.source[k1]) && BringsSecret(w, w.source[k2])
        ensures NeededSecret(w.source[k1]) != NeededSecret(w.source[k2])
      {
        var i :| 0 <= i < |crs| && crs[i].key == k1;
        var j :| 0 <= j < |crs| && crs[j].key == k2;
        assert i < j || j < i;
      }
    }
    if MovableBy(w, namespace, requireOwners) {
      forall i | 0 <= i < |crs| ensures Plannable(w, crs[i]) {
        assert Plannable(w, w.source[crs[i].key]);
      }
      forall i, j | 0 <= i < j < |crs| && BringsSecret(w, crs[i]) && BringsSecret(w, crs[j])
        ensures NeededSecret(crs[i]) != NeededSecret(crs[j])
      {
        assert BringsSecret(w, w.source[crs[i].key]) && BringsSecret(w, w.source[crs[j].key]);
      }
    }
  }

  /** The same of the move. */
  lemma SucceedsBy(w: World, namespace: string, requireOwners: bool, ok: bool, after: World)
    requires MayMove(w, namespace, requireOwners, false, ok, after)
    requires w.faults == [] && Consistent(w.source) && UniqueUids(w.source)
    ensures ok <==> MovableBy(w, namespace, requireOwners)
    ensures ok ==> forall key :: Scoped(w, namespace, key) ==>
      && Arrived(w, w.source[key], after.target)
      && (key !in w.target && SecretName(w.source[key]) != "" ==>
            NeededSecret(w.source[key]) in w.source && Arrived(w, w.source[NeededSecret(w.source[key])], after.target))
    ensures !ok ==> after.target == w.target
  {
    var https: seq<Object>, ipxes: seq<Object> :|
      Lists(w.source, HTTPBootConfig, namespace, https) && Lists(w.source, IPXEBootConfig, namespace, ipxes)
      && Outcome(ok, after) == Moved(w, https + ipxes, requireOwners, false);
    var crs := https + ipxes;
    ListedCrs(w, namespace, https, ipxes);
    SucceedsIff(w, crs, requireOwners);
    MovableIff(w, namespace, requireOwners, crs);
    if ok {
      forall key | Scoped(w, namespace, key)
        ensures Arrived(w, w.source[key], after.target)
        ensures key !in w.target && SecretName(w.source[key]) != "" ==>
            NeededSecret(w.source[key]) in w.source && Arrived(w, w.source[NeededSecret(w.source[key])], after.target)
      {
        var i :| 0 <= i < |crs| && crs[i].key == key && w.source[key] == crs[i];
        SuccessMovesAll(w, crs, requireOwners, i);
      }
    } else {
      FaultFreeFailureRestores(w, crs, requireOwners);
    }
  }


  // ----- What a user can check ---------------------------------------------------------------------------------

  /** A CR that refers to a secret by this name. */
  predicate RefersTo(cr: Object, name: string) {
    name != "" && cr.ignitionSecretRef == Some(name)
  }

  /** A stored CR has nothing that the source CR has not. */
  predicate Covers(cr: Object, stored: Object) {
    && stored.key == cr.key
    && (stored.ownerReferences == [] || stored.ownerReferences == cr.ownerReferences)
    && (stored.ignitionSecretRef.None? || stored.ignitionSecretRef == cr.ignitionSecretRef)
    && (forall f :: f in stored.content ==> f in cr.content && stored.content[f] == cr.content[f])
    && (forall f :: f in stored.status ==> f in cr.status && stored.status[f] == cr.status[f])
  }

  /** Two secrets agree in all but what an API server assigns. */
  predicate Agree(a: Object, b: Object) {
    && a.key == b.key && a.ownerReferences == b.ownerReferences && a.ignitionSecretRef == b.ignitionSecretRef
    && a.content == b.content && a.status == b.status
  }

  predicate HasOneOwner(cr: Object) {
    cr.group == "boot.ironcore.dev" && |cr.ownerReferences| == 1
  }

  /** Both CRs are absent from the target and refer to one secret. */
  ghost predicate Share(w: World, k1: Key, k2: Key, name: string)
    requires k1 in w.source && k2 in w.source
  {
    && k1 != k2 && k1 !in w.target && k2 !in w.target && k1.namespace == k2.namespace
    && RefersTo(w.source[k1], name) && RefersTo(w.source[k2], name)
  }

  ghost predicate NoneShared(w: World, namespace: string) {
    forall k1, k2, name | Scoped(w, namespace, k1) && Scoped(w, namespace, k2) && Share(w, k1, k2, name) ::
      Key(Secret, k1.namespace, name) in w.target
  }

  /** The secrets absent CRs refer to are there. */
  ghost predicate SecretsThere(w: World, namespace: string) {
    forall key, name | Scoped(w, namespace, key) && key !in w.target && RefersTo(w.source[key], name) ::
      var secret := Key(Secret, key.namespace, name);
      secret in w.source && (secret in w.target ==> Agree(w.source[secret], w.target[secret]))
  }

  ghost predicate AllCovered(w: World, namespace: string) {
    forall key :: Scoped(w, namespace, key) && key in w.target ==> Covers(w.source[key], w.target[key])
  }

  /** CRs in the target cover no more than the source's; the secret `namespace/name` that an absent CR refers
      to is in the source, and agrees with the target's if there is one; no two absent CRs refer to one
      secret that the target lacks; and a required owner is the target's ServerBootConfiguration of the
      namespace and name of the CR. */
  ghost predicate Movable(w: World, namespace: string, requireOwners: bool) {
    && AllCovered(w, namespace) && SecretsThere(w, namespace) && NoneShared(w, namespace)
    && (requireOwners ==> forall key :: Scoped(w, namespace, key) && key !in w.target && HasOneOwner(w.source[key]) ==>
          Key(ServerBootConfiguration, key.namespace, key.name) in w.target)
  }

  lemma AgreeIff(a: Object, b: Object)
    ensures Cleared(a) == Cleared(b) <==> Agree(a, b)
  {
    if Cleared(a) == Cleared(b) {
      assert Cleared(a).key == a.key && Cleared(b).key == b.key;
      assert Cleared(a).ownerReferences == a.ownerReferences && Cleared(b).ownerReferences == b.ownerReferences;
      assert Cleared(a).ignitionSecretRef == a.ignitionSecretRef && Cleared(b).ignitionSecretRef == b.ignitionSecretRef;
      assert Cleared(a).content == a.content && Cleared(b).content == b.content;
      assert Cleared(a).status == a.status && Cleared(b).status == b.status;
    }
  }

  /** What one CR needs to be planned. */
  lemma PlannableMeans(w: World, cr: Object)
    ensures Plannable(w, cr) <==>
      if cr.key in w.target then Covers(cr, w.target[cr.key])
      else forall name :: RefersTo(cr, name) ==>
        var secret := Key(Secret, cr.key.namespace, name);
        secret in w.source && (secret in w.target ==> Agree(w.source[secret], w.target[secret]))
  {
    if cr.key in w.target {
      PassesForEqualIff(cr, w.target[cr.key]);
    } else if cr.ignitionSecretRef.Some? && cr.ignitionSecretRef.value != "" {
      var name := cr.ignitionSecretRef.value;
      var secret := Key(Secret, cr.key.namespace, name);
      assert RefersTo(cr, name);
      if secret in w.source && secret in w.target { AgreeIff(w.source[secret], w.target[secret]); }
    }
  }

  lemma BringsMeans(w: World, cr: Object)
    ensures BringsSecret(w, cr) <==>
      (cr.key !in w.target && exists name :: RefersTo(cr, name) && Key(Secret, cr.key.namespace, name) !in w.target)
    ensures forall name :: RefersTo(cr, name) ==> NeededSecret(cr) == Key(Secret, cr.key.namespace, name)
  {
    if BringsSecret(w, cr) { assert RefersTo(cr, cr.ignitionSecretRef.value); }
  }

  lemma AllPlannableMeans(w: World, namespace: string)
    requires Consistent(w.source)
    ensures AllCovered(w, namespace) && SecretsThere(w, namespace) <==>
            forall key :: Scoped(w, namespace, key) ==> Plannable(w, w.source[key])
  {
    forall key | Scoped(w, namespace, key)
      ensures Plannable(w, w.source[key]) <==>
              if key in w.target then Covers(w.source[key], w.target[key])
              else forall name :: RefersTo(w.source[key], name) ==>
                var secret := Key(Secret, key.namespace, name);
                secret in w.source && (secret in w.target ==> Agree(w.source[secret], w.target[secret]))
    {
      PlannableMeans(w, w.source[key]);
    }
  }

  lemma NoneSharedMeans(w: World, namespace: string)
    requires Consistent(w.source)
    ensures NoneShared(w, namespace) <==>
      forall k1, k2 | Scoped(w, namespace, k1) && Scoped(w, namespace, k2) && k1 != k2 ::
        BringsSecret(w, w.source[k1]) && BringsSecret(w, w.source[k2]) ==>
          NeededSecret(w.source[k1]) != NeededSecret(w.source[k2])
  {
    forall key | Scoped(w, namespace, key)
      ensures BringsSecret(w, w.source[key]) <==>
        && key !in w.target
        && exists name :: RefersTo(w.source[key], name) && Key(Secret, key.namespace, name) !in w.target
      ensures forall name :: RefersTo(w.source[key], name) ==>
        NeededSecret(w.source[key]) == Key(Secret, key.namespace, name)
    {
      BringsMeans(w, w.source[key]);
    }
  }

  lemma MovableMeans(w: World, namespace: string, requireOwners: bool)
    requires Consistent(w.source)
    ensures Movable(w, namespace, requireOwners) <==> MovableBy(w, namespace, requireOwners)
  {
    AllPlannableMeans(w, namespace);
    NoneSharedMeans(w, namespace);
  }

  /** The copy of a CR: same key, secret reference and content; a single owner has become the target's
      ServerBootConfiguration of that namespace and name, or is gone. */
  ghost predicate IsMoved(target: map<Key, Object>, cr: Object, copy: Object) {
    var owner := Key(ServerBootConfiguration, cr.key.namespace, cr.key.name);
    && copy.key == cr.key && copy.ignitionSecretRef == cr.ignitionSecretRef && copy.content == cr.content
    && copy.ownerReferences ==
         if !HasOneOwner(cr) then cr.ownerReferences
         else if owner in target then [OwnerReference(target[owner].key.name, target[owner].uid, true)]
         else []
  }

  lemma CopyIsMoved(target: map<Key, Object>, cr: Object, copy: Object)
    requires IsCopy(target, cr, copy)
    ensures IsMoved(target, cr, copy)
  {
    var c, d := Cleared(copy), Cleared(Persisted(Rehomed(target, cr), 0));
    assert c.key == copy.key && c.ignitionSecretRef == copy.ignitionSecretRef && c.content == copy.content;
    assert c.ownerReferences == copy.ownerReferences;
    assert d.key == cr.key && d.ignitionSecretRef == cr.ignitionSecretRef && d.content == cr.content;
  }

  lemma SecretCopyAgrees(target: map<Key, Object>, secret: Object, copy: Object)
    requires IsCopy(target, secret, copy) && secret.key.kind == Secret && secret.group != BOOT_GROUP
    ensures Agree(secret, copy)
  {
    AgreeIff(copy, Persisted(Rehomed(target, secret), 0));
  }

  /** The CRs in scope are in the target, untouched if they were there before, copies otherwise. */
  ghost predicate CRsArrived(w: World, namespace: string, target: map<Key, Object>) {
    forall key :: Scoped(w, namespace, key) ==>
      key in target &&
      if key in w.target then target[key] == w.target[key] else IsMoved(w.target, w.source[key], target[key])
  }

  /** And so are the secrets that moved CRs refer to. */
  ghost predicate SecretsArrived(w: World, namespace: string, target: map<Key, Object>) {
    forall key, name | Scoped(w, namespace, key) && key !in w.target && RefersTo(w.source[key], name) ::
      var secret := Key(Secret, key.namespace, name);
      secret in w.source && secret in target && Agree(w.source[secret], target[secret])
  }

  /** Nothing else is new. */
  ghost predicate NothingElse(w: World, namespace: string, target: map<Key, Object>) {
    forall key :: key in target && key !in w.target ==> ComesWith(w, namespace, key)
  }

  /** Exactly when a fault-free move succeeds, and what is then in the target; a move that does not succeed
      leaves the target as it was. */
  lemma MoveSucceedsIff(w: World, namespace: string, requireOwners: bool, ok: bool, after: World)
    requires MayMove(w, namespace, requireOwners, false, ok, after)
    requires w.faults == [] && Consistent(w.source) && UniqueUids(w.source)
    ensures ok <==> Movable(w, namespace, requireOwners)
    ensures ok ==> CRsArrived(w, namespace, after.target) && SecretsArrived(w, namespace, after.target)
    ensures ok ==> NothingElse(w, namespace, after.target)
    ensures ok ==> forall key :: key in w.target ==> key in after.target && after.target[key] == w.target[key]
    ensures !ok ==> after.target == w.target
  {
    SucceedsBy(w, namespace, requireOwners, ok, after);
    MovableMeans(w, namespace, requireOwners);
    if ok {
      AllArrived(w, namespace, after);
      AddsOnly(w, namespace, requireOwners, after);
    }
  }

  lemma AllArrived(w: World, namespace: string, after: World)
    requires Consistent(w.source)
    requires forall key :: Scoped(w, namespace, key) ==>
      && Arrived(w, w.source[key], after.target)
      && (key !in w.target && SecretName(w.source[key]) != "" ==>
            NeededSecret(w.source[key]) in w.source && Arrived(w, w.source[NeededSecret(w.source[key])], after.target))
    ensures CRsArrived(w, namespace, after.target) && SecretsArrived(w, namespace, after.target)
  {
    forall key | Scoped(w, namespace, key) && key !in w.target
      ensures key in after.target && IsMoved(w.target, w.source[key], after.target[key])
    {
      CopyIsMoved(w.target, w.source[key], after.target[key]);
    }
    forall key, name | Scoped(w, namespace, key) && key !in w.target && RefersTo(w.source[key], name)
      ensures var secret := Key(Secret, key.namespace, name);
        secret in w.source && secret in after.target && Agree(w.source[secret], after.target[secret])
    {
      SecretArrives(w, namespace, key, name, after);
    }
  }

  /** What a CR creates is the CR and the secret it refers to. */
  ghost predicate ComesWith(w: World, namespace: string, key: Key) {
    || Scoped(w, namespace, key)
    || exists cr, name :: Scoped(w, namespace, cr) && cr !in w.target && RefersTo(w.source[cr], name)
                          && key == Key(Secret, cr.namespace, name)
  }

  lemma CreatedComesWith(w: World, namespace: string, cr: Object, key: Key)
    requires Scoped(w, namespace, cr.key) && w.source[cr.key] == cr && Creates(w, cr, key)
    ensures ComesWith(w, namespace, key)
  {
    if key != cr.key { assert RefersTo(w.source[cr.key], cr.ignitionSecretRef.value); }
  }

  lemma AddsOnlyFrom(w: World, namespace: string, crs: seq<Object>, requireOwners: bool)
    requires w.faults == [] && Listing(crs) && Consistent(w.source) && Moved(w, crs, requireOwners, false).ok
    requires forall i :: 0 <= i < |crs| ==> Scoped(w, namespace, crs[i].key) && w.source[crs[i].key] == crs[i]
    ensures NothingElse(w, namespace, Moved(w, crs, requireOwners, false).world.target)
  {
    var target := Moved(w, crs, requireOwners, false).world.target;
    forall key | key in target && key !in w.target ensures ComesWith(w, namespace, key) {
      SuccessAdds(w, crs, requireOwners, key);
      var i :| 0 <= i < |crs| && Creates(w, crs[i], key);
      CreatedComesWith(w, namespace, crs[i], key);
    }
  }

  lemma AddsOnly(w: World, namespace: string, requireOwners: bool, after: World)
    requires MayMove(w, namespace, requireOwners, false, true, after)
    requires w.faults == [] && Consistent(w.source) && UniqueUids(w.source)
    ensures NothingElse(w, namespace, after.target)
    ensures forall key :: key in w.target ==> key in after.target && after.target[key] == w.target[key]
  {
    var https: seq<Object>, ipxes: seq<Object> :|
      Lists(w.source, HTTPBootConfig, namespace, https) && Lists(w.source, IPXEBootConfig, namespace, ipxes)
      && Outcome(true, after) == Moved(w, https + ipxes, requireOwners, false);
    var crs := https + ipxes;
    ListedCrs(w, namespace, https, ipxes);
    RollbackIsExact(w, crs, requireOwners, false);
    forall i | 0 <= i < |crs| ensures Scoped(w, namespace, crs[i].key) && w.source[crs[i].key] == crs[i] {
      ListedStored(w, namespace, https, ipxes, i);
    }
    AddsOnlyFrom(w, namespace, crs, requireOwners);
  }

  lemma SecretArrives(w: World, namespace: string, key: Key, name: string, after: World)
    requires Consistent(w.source) && Scoped(w, namespace, key) && key !in w.target && RefersTo(w.source[key], name)
    requires NeededSecret(w.source[key]) in w.source && Arrived(w, w.source[NeededSecret(w.source[key])], after.target)
    ensures var secret := Key(Secret, key.namespace, name);
      secret in w.source && secret in after.target && Agree(w.source[secret], after.target[secret])
  {
    var secret := Key(Secret, key.namespace, name);
    if secret in w.target {
      AgreeIff(w.source[secret], w.target[secret]);
    } else {
      SecretCopyAgrees(w.target, w.source[secret], after.target[secret]);
    }
  }
}
