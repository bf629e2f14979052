/** Exactly when a fault-free move succeeds, and what it then leaves in the target. */
module MoveSuccess {
  import opened Move
  import opened MoveRollback

  // ----- The condition --------------------------------------------------------------------------

  /** What an API server guarantees of a listing of boot CRs. */
  ghost predicate Listing(crs: seq<Object>) {
    && (forall i :: 0 <= i < |crs| ==> crs[i].key.kind == HTTPBootConfig || crs[i].key.kind == IPXEBootConfig)
    && (forall i, j :: 0 <= i < j < |crs| ==> crs[i].key != crs[j].key && crs[i].uid != crs[j].uid)
  }

  function NeededSecret(cr: Object): Key {
    SecretKey(cr.key.namespace, SecretName(cr))
  }

  /** A CR the target already has must pass for equal; the secret of a CR it lacks must exist in
      the source and be absent or equal in the target. */
  predicate Plannable(w: World, cr: Object) {
    var secret := NeededSecret(cr);
    if cr.key in w.target then PassesForEqual(cr, w.target[cr.key])
    else SecretName(cr) != "" ==>
      secret in w.source && (secret in w.target ==> Cleared(w.source[secret]) == Cleared(w.target[secret]))
  }

  /** What passes for equal: every field the stored CR has is the source's, and fields it lacks go unnoticed. */
  lemma PassesForEqualIff(cr: Object, stored: Object)
    ensures PassesForEqual(cr, stored) <==>
      && stored.key == cr.key
      && (stored.ownerReferences == [] || stored.ownerReferences == cr.ownerReferences)
      && (stored.ignitionSecretRef.None? || stored.ignitionSecretRef == cr.ignitionSecretRef)
      && (forall field :: field in stored.content ==>
            field in cr.content && stored.content[field] == cr.content[field])
      && (forall field :: field in stored.status ==> field in cr.status && stored.status[field] == cr.status[field])
  {
    if PassesForEqual(cr, stored) {
      assert cr.content == Cleared(Decoded(cr, stored)).content && cr.status == Cleared(Decoded(cr, stored)).status;
      assert forall field :: field in stored.content ==> field in cr.content + stored.content;
    }
  }

  /** So a CR that lost a field in the target still passes. */
  lemma LostFieldPasses(cr: Object, field: string)
    requires field in cr.content
    ensures var stored := cr.(content := cr.content - {field});
      Cleared(cr) != Cleared(stored) && PassesForEqual(cr, stored)
  {
    var stored := cr.(content := cr.content - {field});
    assert Cleared(stored).content != Cleared(cr).content by { assert field !in stored.content; }
    PassesForEqualIff(cr, stored);
  }

  ghost predicate BringsSecret(w: World, cr: Object) {
    cr.key !in w.target && SecretName(cr) != "" && NeededSecret(cr) !in w.target
  }

  ghost predicate NoSharedSecret(w: World, crs: seq<Object>) {
    forall i, j :: 0 <= i < j < |crs| && BringsSecret(w, crs[i]) && BringsSecret(w, crs[j]) ==>
      NeededSecret(crs[i]) != NeededSecret(crs[j])
  }

  ghost predicate OwnersPresent(w: World, crs: seq<Object>) {
    forall i :: 0 <= i < |crs| && crs[i].key !in w.target && Owned(crs[i]) ==> OwnerKey(crs[i]) in w.target
  }

  ghost predicate AllPlannable(w: World, crs: seq<Object>) {
    forall i :: 0 <= i < |crs| ==> Plannable(w, crs[i])
  }

  /** The copy of `o` that belongs in the target: its only owner, if it has just one, becomes the
      target's ServerBootConfiguration of the same name, or is dropped. */
  function Rehomed(target: map<Key, Object>, o: Object): Object {
    if Owned(o) then
      o.(ownerReferences := if OwnerKey(o) in target
                            then [OwnerReference(target[OwnerKey(o)].key.name, target[OwnerKey(o)].uid, true)]
                            else [])
    else o
  }

  ghost predicate IsCopy(target: map<Key, Object>, o: Object, copy: Object) {
    Cleared(copy) == Cleared(Persisted(Rehomed(target, o), 0))
  }

  // ----- Planning without faults ------------------------------------------------------------------

  lemma {:induction false} NamesFaithful(crs: seq<Object>, i: nat)
    requires i < |crs|
    requires forall k, l :: 0 <= k < l < |crs| ==> crs[k].uid != crs[l].uid
    ensures NameFor(SecretNames(crs), crs[i].uid) == SecretName(crs[i])
  {
    var last := |crs| - 1;
    if i < last {
      NamesFaithful(crs[..last], i);
    } else {
      NamesOnlyOf(crs[..last], crs[i].uid);
    }
  }

  lemma {:induction false} NamesOnlyOf(crs: seq<Object>, uid: nat)
    requires forall k :: 0 <= k < |crs| ==> crs[k].uid != uid
    ensures uid !in SecretNames(crs)
  {
    if crs != [] { NamesOnlyOf(crs[..|crs| - 1], uid); }
  }

  ghost function ToMove(w: World, cr: Object): seq<Object>
    requires Plannable(w, cr)
  {
    if cr.key in w.target then []
    else [cr] + if BringsSecret(w, cr) then [w.source[NeededSecret(cr)]] else []
  }

  ghost function AllToMove(w: World, crs: seq<Object>): seq<Object>
    requires AllPlannable(w, crs)
  {
    if crs == [] then [] else ToMove(w, crs[0]) + AllToMove(w, crs[1..])
  }

  lemma PlanOneFaultless(w: World, cr: Object)
    requires w.faults == []
    ensures var p := PlanOne(w, cr, SecretName(cr));
      && p.world == w
      && (p.result.Ok? <==> Plannable(w, cr))
      && (p.result.Ok? ==> p.result.value == ToMove(w, cr))
  {
    assert Tick(w) == w;
  }

  lemma {:induction false} PlanFaultless(w: World, crs: seq<Object>, names: map<nat, string>)
    requires w.faults == []
    requires forall i :: 0 <= i < |crs| ==> NameFor(names, crs[i].uid) == SecretName(crs[i])
    ensures var p := Plan(w, crs, names);
      && p.world == w
      && (p.result.Ok? <==> AllPlannable(w, crs))
      && (p.result.Ok? ==> p.result.value == AllToMove(w, crs))
    decreases |crs|
  {
    if crs != [] {
      PlanOneFaultless(w, crs[0]);
      PlanFaultless(w, crs[1..], names);
      assert AllPlannable(w, crs) <==> Plannable(w, crs[0]) && AllPlannable(w, crs[1..]) by {
        assert forall i :: 0 < i < |crs| ==> crs[i] == crs[1..][i - 1];
      }
    }
  }

  // ----- Creating without faults -------------------------------------------------------------------

  ghost predicate Creatable(target: map<Key, Object>, objs: seq<Object>, requireOwners: bool) {
    && Distinct(objs)
    && (forall key :: key in Keys(objs) ==> key !in target)
    && (requireOwners ==> forall i :: 0 <= i < |objs| && Owned(objs[i]) ==> OwnerKey(objs[i]) in target)
  }

  lemma CreatableCons(target: map<Key, Object>, o: Object, created: Object, rest: seq<Object>, requireOwners: bool)
    requires o.key.kind != ServerBootConfiguration
    ensures Creatable(target, [o] + rest, requireOwners) <==>
      && o.key !in target
      && (requireOwners && Owned(o) ==> OwnerKey(o) in target)
      && Creatable(target[o.key := created], rest, requireOwners)
  {
    KeysCons(o, rest);
    var objs := [o] + rest;
    assert objs[0] == o;
    assert forall i :: 0 <= i < |rest| ==> objs[i + 1] == rest[i];
    assert forall i :: 0 < i < |objs| ==> objs[i] == rest[i - 1];
  }

  lemma {:induction false} ExecuteSucceedsIff(w: World, objs: seq<Object>, requireOwners: bool)
    requires w.faults == []
    requires forall i :: 0 <= i < |objs| ==> objs[i].key.kind != ServerBootConfiguration
    ensures Execute(w, objs, requireOwners).ok <==> Creatable(w.target, objs, requireOwners)
    decreases |objs|
  {
    if objs != [] {
      var o, rest, p := objs[0], objs[1..], Prepare(w, objs[0], requireOwners);
      assert objs == [o] + rest;
      assert p.result.Ok? <==> (requireOwners && Owned(o) ==> OwnerKey(o) in w.target);
      CreatableCons(w.target, o, Persisted(o, 0), rest, requireOwners);
      if p.result.Ok? && o.key !in w.target {
        var c := Create(p.world, p.result.value);
        ExecuteSucceedsIff(c.world, rest, requireOwners);
        CreatableCons(w.target, o, c.world.target[o.key], rest, requireOwners);
      }
    }
  }

  lemma PrepareFaultless(w: World, o: Object, requireOwners: bool)
    requires w.faults == []
    ensures var p := Prepare(w, o, requireOwners);
      && p.world == w
      && (p.result.Ok? <==> (requireOwners && Owned(o) ==> OwnerKey(o) in w.target))
      && (p.result.Ok? ==> p.result.value == Rehomed(w.target, o).(resourceVersion := 0))
  {
    assert Tick(w) == w;
  }

  lemma ExecuteKeeps(w: World, objs: seq<Object>, requireOwners: bool, key: Key)
    requires key in w.target
    ensures var target := Execute(w, objs, requireOwners).world.target; key in target && target[key] == w.target[key]
  {
    ExecuteGrows(w, objs, requireOwners);
  }

  /** What a successful fault-free execution does with its first object. */
  lemma FirstCreated(w: World, objs: seq<Object>, requireOwners: bool)
    requires w.faults == [] && objs != [] && Execute(w, objs, requireOwners).ok
    ensures var o := Rehomed(w.target, objs[0]).(resourceVersion := 0);
      var w1 := Create(w, o).world;
      && w1.faults == [] && w1.target == w.target[o.key := Persisted(o, w.serial + 1)]
      && Execute(w1, objs[1..], requireOwners).ok
      && Execute(w, objs, requireOwners).world == Execute(w1, objs[1..], requireOwners).world
  {
    PrepareFaultless(w, objs[0], requireOwners);
    ExecuteUnfolds(w, objs, requireOwners);
  }

  lemma CopyAlike(before: map<Key, Object>, after: map<Key, Object>, o: Object, copy: Object)
    requires IsCopy(after, o, copy)
    requires OwnerKey(o) in before <==> OwnerKey(o) in after
    requires OwnerKey(o) in before ==> before[OwnerKey(o)] == after[OwnerKey(o)]
    ensures IsCopy(before, o, copy)
  {
  }

  lemma {:induction false} ExecuteCopies(w: World, objs: seq<Object>, requireOwners: bool, i: nat)
    requires w.faults == []
    requires forall k :: 0 <= k < |objs| ==> objs[k].key.kind != ServerBootConfiguration
    requires Execute(w, objs, requireOwners).ok && i < |objs|
    ensures var target := Execute(w, objs, requireOwners).world.target;
      objs[i].key in target && IsCopy(w.target, objs[i], target[objs[i].key])
    decreases |objs|
  {
    FirstCreated(w, objs, requireOwners);
    var o := Rehomed(w.target, objs[0]).(resourceVersion := 0);
    var w1 := Create(w, o).world;
    if i == 0 {
      ExecuteKeeps(w1, objs[1..], requireOwners, o.key);
    } else {
      ExecuteCopies(w1, objs[1..], requireOwners, i - 1);
      var copy := Execute(w, objs, requireOwners).world.target[objs[i].key];
      CopyAlike(w.target, w1.target, objs[i], copy);
    }
  }

  // ----- The main results ----------------------------------------------------------------------------

  lemma {:induction false} KeysConcat(a: seq<Object>, b: seq<Object>)
    ensures Keys(a + b) == Keys(a) + Keys(b)
  {
    if a == [] {
      assert a + b == b;
    } else {
      KeysConcat(a[1..], b);
      assert (a + b)[1..] == a[1..] + b;
    }
  }

  lemma {:induction false} DistinctConcat(a: seq<Object>, b: seq<Object>)
    ensures Distinct(a + b) <==> Distinct(a) && Distinct(b) && Keys(a) !! Keys(b)
  {
    if a == [] {
      assert a + b == b;
    } else {
      DistinctConcat(a[1..], b);
      KeysConcat(a[1..], b);
      assert (a + b)[1..] == a[1..] + b;
    }
  }

  /** `key` is among what moving `cr` creates: the CR if the target lacks it, and the secret it brings. */
  ghost predicate Creates(w: World, cr: Object, key: Key) {
    cr.key !in w.target && (key == cr.key || (BringsSecret(w, cr) && key == NeededSecret(cr)))
  }

  lemma ToMoveKeys(w: World, cr: Object, key: Key)
    requires Consistent(w.source) && Plannable(w, cr)
    ensures key in Keys(ToMove(w, cr)) <==> Creates(w, cr, key)
    ensures cr.key.kind != Secret ==> Distinct(ToMove(w, cr))
  {
    if BringsSecret(w, cr) {
      KeysCons(cr, [w.source[NeededSecret(cr)]]);
    }
  }

  lemma {:induction false} MovedKeys(w: World, crs: seq<Object>, key: Key)
    requires Consistent(w.source) && AllPlannable(w, crs)
    ensures key in Keys(AllToMove(w, crs)) <==> exists i :: 0 <= i < |crs| && Creates(w, crs[i], key)
  {
    if crs != [] {
      MovedKeys(w, crs[1..], key);
      KeysConcat(ToMove(w, crs[0]), AllToMove(w, crs[1..]));
      ToMoveKeys(w, crs[0], key);
      assert forall i :: 0 <= i < |crs[1..]| ==> crs[1..][i] == crs[i + 1];
    }
  }

  /** No key is created twice iff no two CRs bring the same secret. */
  lemma {:induction false} DistinctIff(w: World, crs: seq<Object>)
    requires Consistent(w.source) && Listing(crs) && AllPlannable(w, crs)
    ensures Distinct(AllToMove(w, crs)) <==> NoSharedSecret(w, crs)
  {
    if crs != [] {
      var head, rest := crs[0], crs[1..];
      assert forall i :: 0 <= i < |rest| ==> rest[i] == crs[i + 1];
      DistinctIff(w, rest);
      DistinctConcat(ToMove(w, head), AllToMove(w, rest));
      forall key ensures key in Keys(ToMove(w, head)) <==> Creates(w, head, key) { ToMoveKeys(w, head, key); }
      ToMoveKeys(w, head, head.key);
      forall key ensures key in Keys(AllToMove(w, rest)) <==> exists i :: 0 <= i < |rest| && Creates(w, rest[i], key) {
        MovedKeys(w, rest, key);
      }
      ClashIff(w, crs);
    }
  }

  /** The first CR and the others create a common key iff they bring the same secret. */
  lemma ClashIff(w: World, crs: seq<Object>)
    requires Listing(crs) && crs != []
    ensures NoSharedSecret(w, crs) <==>
      && NoSharedSecret(w, crs[1..])
      && forall key, i {:trigger Creates(w, crs[1..][i], key)} ::
           0 <= i < |crs[1..]| && Creates(w, crs[1..][i], key) ==> !Creates(w, crs[0], key)
  {
    var rest := crs[1..];
    assert forall i :: 0 <= i < |rest| ==> rest[i] == crs[i + 1];
    if i :| 0 <= i < |rest| && BringsSecret(w, crs[0]) && BringsSecret(w, rest[i]) &&
            NeededSecret(crs[0]) == NeededSecret(rest[i]) {
      assert Creates(w, rest[i], NeededSecret(crs[0]));
    }
  }

  lemma {:induction false} OwnersIff(w: World, crs: seq<Object>)
    requires Consistent(w.source) && AllPlannable(w, crs)
    ensures OwnersPresent(w, crs) <==>
      forall o :: o in AllToMove(w, crs) && Owned(o) ==> OwnerKey(o) in w.target
  {
    if crs != [] {
      var rest := crs[1..];
      assert forall i :: 0 <= i < |rest| ==> rest[i] == crs[i + 1];
      OwnersIff(w, rest);
      assert forall o :: o in AllToMove(w, crs) <==> o in ToMove(w, crs[0]) || o in AllToMove(w, rest);
      assert forall o :: o in ToMove(w, crs[0]) && Owned(o) ==> o == crs[0];
      assert crs[0].key !in w.target ==> crs[0] in ToMove(w, crs[0]);
    }
  }

  lemma {:induction false} MovedKinds(w: World, crs: seq<Object>)
    requires Consistent(w.source) && AllPlannable(w, crs) && Listing(crs)
    ensures forall o :: o in AllToMove(w, crs) ==> o.key.kind != ServerBootConfiguration
    ensures forall key :: key in Keys(AllToMove(w, crs)) ==> key !in w.target
  {
    if crs != [] { MovedKinds(w, crs[1..]); }
    forall key | key in Keys(AllToMove(w, crs)) ensures key !in w.target { MovedKeys(w, crs, key); }
  }

  /** Without faults a dry run succeeds iff every CR can be planned, and a move succeeds iff moreover
      no two absent CRs bring the same secret and, when owners are required, every owner exists. */
  lemma SucceedsIff(w: World, crs: seq<Object>, requireOwners: bool)
    requires w.faults == [] && Listing(crs) && Consistent(w.source)
    ensures Moved(w, crs, requireOwners, true).ok <==> AllPlannable(w, crs)
    ensures Moved(w, crs, requireOwners, false).ok <==>
      AllPlannable(w, crs) && NoSharedSecret(w, crs) && (requireOwners ==> OwnersPresent(w, crs))
  {
    PlansAll(w, crs);
    if AllPlannable(w, crs) {
      var objs := AllToMove(w, crs);
      MovedKinds(w, crs);
      ExecuteSucceedsIff(w, objs, requireOwners);
      DistinctIff(w, crs);
      OwnersIff(w, crs);
    }
  }

  lemma PlansAll(w: World, crs: seq<Object>)
    requires w.faults == [] && Listing(crs)
    ensures var p := Plan(w, crs, SecretNames(crs));
      && p.world == w
      && (p.result.Ok? <==> AllPlannable(w, crs))
      && (p.result.Ok? ==> p.result.value == AllToMove(w, crs))
  {
    forall i | 0 <= i < |crs| ensures NameFor(SecretNames(crs), crs[i].uid) == SecretName(crs[i]) {
      NamesFaithful(crs, i);
    }
    PlanFaultless(w, crs, SecretNames(crs));
  }

  /** `o` is in the target: untouched and passing for equal if it was there before, a copy otherwise. */
  ghost predicate Arrived(w: World, o: Object, target: map<Key, Object>) {
    && o.key in target
    && if o.key in w.target then
         target[o.key] == w.target[o.key] &&
         (if o.key.kind == Secret then Cleared(o) == Cleared(w.target[o.key]) else PassesForEqual(o, w.target[o.key]))
       else IsCopy(w.target, o, target[o.key])
  }

  lemma {:induction false} InAllToMove(w: World, crs: seq<Object>, i: nat)
    requires AllPlannable(w, crs) && i < |crs|
    ensures forall o :: o in ToMove(w, crs[i]) ==> o in AllToMove(w, crs)
  {
    if i > 0 { InAllToMove(w, crs[1..], i - 1); }
  }

  /** A fault-free success leaves a copy of every planned object. */
  lemma PlannedArrives(w: World, crs: seq<Object>, requireOwners: bool, o: Object)
    requires w.faults == [] && Listing(crs) && Consistent(w.source) && AllPlannable(w, crs)
    requires Moved(w, crs, requireOwners, false).ok && o in AllToMove(w, crs)
    ensures var target := Moved(w, crs, requireOwners, false).world.target;
      o.key in target && IsCopy(w.target, o, target[o.key])
  {
    PlansAll(w, crs);
    var objs := AllToMove(w, crs);
    MovedKinds(w, crs);
    var k: nat :| k < |objs| && objs[k] == o;
    ExecuteCopies(w, objs, requireOwners, k);
  }

  lemma {:induction false} ExecuteMovesAll(w: World, objs: seq<Object>, requireOwners: bool)
    requires Execute(w, objs, requireOwners).ok
    ensures Keys(Execute(w, objs, requireOwners).moved) == Keys(objs) && Execute(w, objs, requireOwners).stray == {}
    decreases |objs|
  {
    if objs != [] {
      var p := Prepare(w, objs[0], requireOwners);
      PrepareReads(w, objs[0], requireOwners);
      ExecuteUnfolds(w, objs, requireOwners);
      var rest := Execute(Create(p.world, p.result.value).world, objs[1..], requireOwners);
      ExecuteMovesAll(Create(p.world, p.result.value).world, objs[1..], requireOwners);
      KeysCons(p.result.value, rest.moved);
    }
  }

  /** A fault-free success adds nothing but what the CRs create. */
  lemma SuccessAdds(w: World, crs: seq<Object>, requireOwners: bool, key: Key)
    requires w.faults == [] && Listing(crs) && Consistent(w.source) && Moved(w, crs, requireOwners, false).ok
    requires key in Moved(w, crs, requireOwners, false).world.target && key !in w.target
    ensures exists i :: 0 <= i < |crs| && Creates(w, crs[i], key)
  {
    SucceedsIff(w, crs, requireOwners);
    PlansAll(w, crs);
    ExecuteGrows(w, AllToMove(w, crs), requireOwners);
    ExecuteMovesAll(w, AllToMove(w, crs), requireOwners);
    MovedKeys(w, crs, key);
  }

  lemma PresentUntouched(w: World, crs: seq<Object>, requireOwners: bool, key: Key)
    requires key in w.target
    ensures var target := Moved(w, crs, requireOwners, false).world.target;
      key in target && target[key] == w.target[key]
  {
    RollbackIsExact(w, crs, requireOwners, false);
  }

  lemma SecretOfAbsent(w: World, cr: Object)
    requires Plannable(w, cr) && cr.key !in w.target
    ensures cr in ToMove(w, cr)
    ensures BringsSecret(w, cr) ==> w.source[NeededSecret(cr)] in ToMove(w, cr)
  {
  }

  lemma CRArrives(w: World, crs: seq<Object>, requireOwners: bool, i: nat)
    requires w.faults == [] && Listing(crs) && Consistent(w.source) && i < |crs| && AllPlannable(w, crs)
    requires Moved(w, crs, requireOwners, false).ok
    ensures Arrived(w, crs[i], Moved(w, crs, requireOwners, false).world.target)
  {
    if crs[i].key in w.target {
      PresentUntouched(w, crs, requireOwners, crs[i].key);
    } else {
      InAllToMove(w, crs, i);
      SecretOfAbsent(w, crs[i]);
      PlannedArrives(w, crs, requireOwners, crs[i]);
    }
  }

  /** After a successful move every CR in scope and the secret of every CR moved are in the target:
      unchanged and equal where they were there already, copied where they were not. */
  lemma SuccessMovesAll(w: World, crs: seq<Object>, requireOwners: bool, i: nat)
    requires w.faults == [] && Listing(crs) && Consistent(w.source) && i < |crs|
    requires Moved(w, crs, requireOwners, false).ok
    ensures var target := Moved(w, crs, requireOwners, false).world.target;
      && Arrived(w, crs[i], target)
      && (crs[i].key !in w.target && SecretName(crs[i]) != "" ==>
            NeededSecret(crs[i]) in w.source && Arrived(w, w.source[NeededSecret(crs[i])], target))
  {
    SucceedsIff(w, crs, requireOwners);
    CRArrives(w, crs, requireOwners, i);
    var secret := NeededSecret(crs[i]);
    if crs[i].key !in w.target && SecretName(crs[i]) != "" {
      if secret in w.target {
        PresentUntouched(w, crs, requireOwners, secret);
      } else {
        InAllToMove(w, crs, i);
        SecretOfAbsent(w, crs[i]);
        PlannedArrives(w, crs, requireOwners, w.source[secret]);
      }
    }
  }
}
