/**
 When a move restores the target although it fails, in terms of what is known before the call: the
 objects on both sides and the script of faults.
 */
module MoveScript {
  import opened Wrappers
  import opened Move
  import opened MoveRollback
  import opened MoveSuccess

  // ----- The calls of a move and their fate ------------------------------------------------------------------

  /** `Dead` is a call that ends the move whatever the network does: a Get whose answer does not allow to go
      on, or a create of a key that is taken. */
  datatype Call = ObjectGet | ObjectCreate | Dead

  /** Planning asks the target for the CR and, if it lacks it, both sides for the secret. */
  function PlanCallsOf(w: World, cr: Object): seq<Call> {
    var secret := NeededSecret(cr);
    if cr.key in w.target then [if PassesForEqual(cr, w.target[cr.key]) then ObjectGet else Dead]
    else if SecretName(cr) == "" then [ObjectGet]
    else if secret !in w.source then [ObjectGet, Dead]
    else
      [ObjectGet, ObjectGet,
       if secret in w.target && Cleared(w.source[secret]) != Cleared(w.target[secret]) then Dead else ObjectGet]
  }

  function PlanCalls(w: World, crs: seq<Object>): seq<Call> {
    if crs == [] then [] else PlanCallsOf(w, crs[0]) + PlanCalls(w, crs[1..])
  }

  function OwnerCalls(keys: set<Key>, o: Object, requireOwners: bool): seq<Call> {
    if !Owned(o) then [] else if requireOwners && OwnerKey(o) !in keys then [Dead] else [ObjectGet]
  }

  /** Execution asks for an owner and creates the object; `keys` are those in the target by then. */
  function MoveCalls(keys: set<Key>, objs: seq<Object>, requireOwners: bool): seq<Call>
    decreases |objs|
  {
    if objs == [] then []
    else
      var o := objs[0];
      OwnerCalls(keys, o, requireOwners)
      + ([if o.key in keys then Dead else ObjectCreate] + MoveCalls(keys + {o.key}, objs[1..], requireOwners))
  }

  /** The calls of a move, up to where it ends by itself. */
  ghost function CallsOf(w: World, crs: seq<Object>, requireOwners: bool): seq<Call> {
    PlanCalls(w, crs) +
    if AllPlannable(w, crs) then MoveCalls(w.target.Keys, AllToMove(w, crs), requireOwners) else []
  }

  /** All calls go through, or one is the first to fail: so many objects have been created by then, the
      failing call may be a create whose reply was lost, and so the script goes on. */
  datatype Fate = Through | Stopped(created: nat, stray: bool, later: seq<Fault>)

  function Tail(faults: seq<Fault>): seq<Fault> {
    if faults == [] then [] else faults[1..]
  }

  function FateOf(calls: seq<Call>, faults: seq<Fault>): Fate {
    if calls == [] then Through
    else if calls[0] == Dead || FaultAt(faults, 0) != NoFault then
      Stopped(0, calls[0] == ObjectCreate && FaultAt(faults, 0) == LostReply, Tail(faults))
    else Created(calls[0], FateOf(calls[1..], Tail(faults)))
  }

  function Created(call: Call, rest: Fate): Fate {
    if rest.Stopped? && call == ObjectCreate then rest.(created := rest.created + 1) else rest
  }

  /** A stopped move restores the target if no created object is unknown and no delete is rejected. */
  predicate Restores(fate: Fate)
    requires fate.Stopped?
  {
    !fate.stray && forall i :: 0 <= i < fate.created ==> FaultAt(fate.later, i) != Rejected
  }

  lemma FateCons(call: Call, calls: seq<Call>, faults: seq<Fault>)
    ensures FateOf([call] + calls, faults) ==
      if call == Dead || FaultAt(faults, 0) != NoFault then
        Stopped(0, call == ObjectCreate && FaultAt(faults, 0) == LostReply, Tail(faults))
      else Created(call, FateOf(calls, Tail(faults)))
  {
    assert ([call] + calls)[1..] == calls;
  }

  lemma FateOfTwo(a: Call, b: Call, calls: seq<Call>, faults: seq<Fault>)
    ensures FateOf([a, b] + calls, faults) == FateOf([a] + ([b] + calls), faults)
  {
    assert [a, b] + calls == [a] + ([b] + calls);
  }

  lemma FateOfThree(a: Call, b: Call, c: Call, calls: seq<Call>, faults: seq<Fault>)
    ensures FateOf([a, b, c] + calls, faults) == FateOf([a] + ([b] + ([c] + calls)), faults)
  {
    assert [a, b, c] + calls == [a] + ([b] + ([c] + calls));
  }

  // ----- Planning under a script -----------------------------------------------------------------------------

  /** Planning leaves both clusters alone.  It fails, with nothing to undo, or goes on with the script. */
  ghost predicate Planned(w: World, p: Step<seq<Object>>, whole: Fate, rest: seq<Call>) {
    && p.world == w.(faults := p.world.faults)
    && if p.result.Err? then whole.Stopped? && Restores(whole) else whole == FateOf(rest, p.world.faults)
  }

  lemma SecretScript(w: World, cr: Object)
    requires cr.key !in w.target && SecretName(cr) != ""
    ensures var s, secret := SecretToMove(w, SecretName(cr), cr.key.namespace), NeededSecret(cr);
      var differs := secret in w.source && secret in w.target && Cleared(w.source[secret]) != Cleared(w.target[secret]);
      if FaultAt(w.faults, 0) != NoFault || secret !in w.source || FaultAt(Tail(w.faults), 0) != NoFault || differs then
        s.result.Err?
      else s.result.Ok? && s.world == Tick(Tick(w)) && [cr] + Optional(s.result.value) == ToMove(w, cr)
  {
  }

  lemma PlanOneScript(w: World, cr: Object, rest: seq<Call>)
    ensures Planned(w, PlanOne(w, cr, SecretName(cr)), FateOf(PlanCallsOf(w, cr) + rest, w.faults), rest)
    ensures PlanOne(w, cr, SecretName(cr)).result.Ok? ==>
      Plannable(w, cr) && PlanOne(w, cr, SecretName(cr)).result.value == ToMove(w, cr)
  {
    PlanOneReads(w, cr, SecretName(cr));
    if cr.key in w.target || SecretName(cr) == "" {
      FateCons(ObjectGet, rest, w.faults);
      FateCons(Dead, rest, w.faults);
    } else {
      SecretScript(Tick(w), cr);
      SecretFate(w, cr, rest);
    }
  }

  /** The fate of the calls of a CR that needs a secret. */
  lemma SecretFate(w: World, cr: Object, rest: seq<Call>)
    requires cr.key !in w.target && SecretName(cr) != ""
    ensures var secret, f1 := NeededSecret(cr), Tail(w.faults);
      var f2 := Tail(f1);
      var differs := secret in w.source && secret in w.target && Cleared(w.source[secret]) != Cleared(w.target[secret]);
      var fate := FateOf(PlanCallsOf(w, cr) + rest, w.faults);
      if FaultAt(w.faults, 0) != NoFault || FaultAt(f1, 0) != NoFault || secret !in w.source
         || FaultAt(f2, 0) != NoFault || differs then
        fate.Stopped? && Restores(fate)
      else fate == FateOf(rest, Tail(f2))
  {
    var secret, f1 := NeededSecret(cr), Tail(w.faults);
    if secret !in w.source {
      FateOfTwo(ObjectGet, Dead, rest, w.faults);
      FateCons(ObjectGet, [Dead] + rest, w.faults);
      FateCons(Dead, rest, f1);
    } else {
      var c := if secret in w.target && Cleared(w.source[secret]) != Cleared(w.target[secret]) then Dead else ObjectGet;
      FateOfThree(ObjectGet, ObjectGet, c, rest, w.faults);
      FateCons(ObjectGet, [ObjectGet] + ([c] + rest), w.faults);
      FateCons(ObjectGet, [c] + rest, f1);
      FateCons(c, rest, Tail(f1));
    }
  }

  lemma SamePlannable(w: World, faults: seq<Fault>, cr: Object)
    ensures Plannable(w, cr) <==> Plannable(w.(faults := faults), cr)
    ensures PlanCallsOf(w, cr) == PlanCallsOf(w.(faults := faults), cr)
    ensures Plannable(w, cr) ==> ToMove(w, cr) == ToMove(w.(faults := faults), cr)
  {
  }

  /** Plan and calls do not depend on the script. */
  lemma {:induction false} SamePlan(w: World, faults: seq<Fault>, crs: seq<Object>)
    ensures AllPlannable(w, crs) <==> AllPlannable(w.(faults := faults), crs)
    ensures AllPlannable(w, crs) ==> AllToMove(w.(faults := faults), crs) == AllToMove(w, crs)
    ensures PlanCalls(w.(faults := faults), crs) == PlanCalls(w, crs)
  {
    if crs != [] {
      SamePlannable(w, faults, crs[0]);
      SamePlan(w, faults, crs[1..]);
      PlannableCons(w, crs);
      PlannableCons(w.(faults := faults), crs);
    }
  }

  lemma PlannableCons(w: World, crs: seq<Object>)
    requires crs != []
    ensures AllPlannable(w, crs) <==> Plannable(w, crs[0]) && AllPlannable(w, crs[1..])
  {
    assert forall i :: 0 <= i < |crs[1..]| ==> crs[1..][i] == crs[i + 1];
    assert forall i :: 0 < i < |crs| ==> crs[i] == crs[1..][i - 1];
  }

  /** Whether planning fails is decided by its calls and the script; if it does not, all is planned. */
  lemma {:induction false} PlanScript(w: World, crs: seq<Object>, names: map<nat, string>, rest: seq<Call>)
    requires forall i :: 0 <= i < |crs| ==> NameFor(names, crs[i].uid) == SecretName(crs[i])
    ensures Planned(w, Plan(w, crs, names), FateOf(PlanCalls(w, crs) + rest, w.faults), rest)
    ensures Plan(w, crs, names).result.Ok? ==>
      AllPlannable(w, crs) && Plan(w, crs, names).result.value == AllToMove(w, crs)
    decreases |crs|
  {
    if crs == [] {
      assert [] + rest == rest;
    } else {
      var cr, others := crs[0], crs[1..];
      var more := PlanCalls(w, others) + rest;
      assert forall i :: 0 <= i < |others| ==> others[i] == crs[i + 1];
      PlanOneScript(w, cr, more);
      assert PlanCallsOf(w, cr) + more == PlanCalls(w, crs) + rest;
      var first := PlanOne(w, cr, SecretName(cr));
      PlannableCons(w, crs);
      if first.result.Ok? {
        SamePlan(w, first.world.faults, others);
        PlanScript(first.world, others, names, rest);
        PlanUnfolds(w, crs, names);
      } else {
        assert Plan(w, crs, names) == first;
      }
    }
  }

  lemma PlanUnfolds(w: World, crs: seq<Object>, names: map<nat, string>)
    requires crs != [] && PlanOne(w, crs[0], NameFor(names, crs[0].uid)).result.Ok?
    ensures var first := PlanOne(w, crs[0], NameFor(names, crs[0].uid));
      var rest := Plan(first.world, crs[1..], names);
      && Plan(w, crs, names).world == rest.world
      && Plan(w, crs, names).result == if rest.result.Ok? then Ok(first.result.value + rest.result.value) else Err
  {
  }

  // ----- Creating under a script -------------------------------------------------------------------------------

  /** How execution ends. */
  ghost predicate Ends(e: Executed, fate: Fate) {
    match fate
    case Through => e.ok
    case Stopped(created, stray, later) =>
      !e.ok && |e.moved| == created && (e.stray != {} <==> stray) && e.world.faults == later
  }

  lemma PrepareScript(w: World, o: Object, requireOwners: bool)
    ensures var p := Prepare(w, o, requireOwners);
      && p.world == (if Owned(o) then Tick(w) else w)
      && (p.result.Err? <==>
            Owned(o) && (FaultAt(w.faults, 0) != NoFault || (requireOwners && OwnerKey(o) !in w.target)))
      && (p.result.Ok? ==> p.result.value.key == o.key && p.result.value.resourceVersion == 0)
  {
  }

  lemma CreateScript(w: World, o: Object)
    requires o.resourceVersion == 0
    ensures var c, taken := Create(w, o), o.key in w.target;
      && (c.result.Ok? <==> FaultAt(w.faults, 0) == NoFault && !taken)
      && c.world.faults == Tail(w.faults)
      && (c.result.Ok? ==> c.world.target.Keys == w.target.Keys + {o.key})
      && (c.result.Err? ==>
            (c.world.target.Keys - w.target.Keys != {} <==> FaultAt(w.faults, 0) == LostReply && !taken))
  {
    var c := Create(w, o);
    if FaultAt(w.faults, 0) != Rejected && o.key !in w.target { assert o.key in c.world.target.Keys - w.target.Keys; }
  }

  lemma ExecuteFromScript(p: World, o: Object, rest: seq<Object>, requireOwners: bool)
    requires o.resourceVersion == 0
    requires var c := Create(p, o);
      c.result.Ok? ==>
        Ends(Execute(c.world, rest, requireOwners),
             FateOf(MoveCalls(c.world.target.Keys, rest, requireOwners), c.world.faults))
    ensures Ends(ExecuteFrom(p, o, rest, requireOwners),
                 FateOf([if o.key in p.target then Dead else ObjectCreate]
                        + MoveCalls(p.target.Keys + {o.key}, rest, requireOwners), p.faults))
  {
    CreateScript(p, o);
    FateCons(if o.key in p.target then Dead else ObjectCreate,
             MoveCalls(p.target.Keys + {o.key}, rest, requireOwners), p.faults);
  }

  /** The calls of the first object before its create. */
  lemma OwnerFate(w: World, o: Object, rest: seq<Call>, requireOwners: bool)
    ensures var p := Prepare(w, o, requireOwners);
      FateOf(OwnerCalls(w.target.Keys, o, requireOwners) + rest, w.faults) ==
        if p.result.Err? then Stopped(0, false, p.world.faults) else FateOf(rest, p.world.faults)
  {
    PrepareScript(w, o, requireOwners);
    FateCons(ObjectGet, rest, w.faults);
    FateCons(Dead, rest, w.faults);
    assert [] + rest == rest;
  }

  /** Where execution stops is decided by its calls and the script, whatever is to be created. */
  lemma {:induction false} ExecuteScript(w: World, objs: seq<Object>, requireOwners: bool)
    ensures Ends(Execute(w, objs, requireOwners), FateOf(MoveCalls(w.target.Keys, objs, requireOwners), w.faults))
    decreases |objs|
  {
    if objs != [] {
      var o, rest := objs[0], objs[1..];
      var p := Prepare(w, o, requireOwners);
      ExecuteUnfolds(w, objs, requireOwners);
      PrepareScript(w, o, requireOwners);
      OwnerFate(w, o, [if o.key in w.target.Keys then Dead else ObjectCreate]
                      + MoveCalls(w.target.Keys + {o.key}, rest, requireOwners), requireOwners);
      if p.result.Ok? {
        var c := Create(p.world, p.result.value);
        if c.result.Ok? { ExecuteScript(c.world, rest, requireOwners); }
        ExecuteFromScript(p.world, p.result.value, rest, requireOwners);
      }
    }
  }

  // ----- The promise, decided by the script ---------------------------------------------------------------------

  lemma MovedUnfolds(w: World, crs: seq<Object>, requireOwners: bool)
    ensures var plan := Plan(w, crs, SecretNames(crs));
      Moved(w, crs, requireOwners, false).ok <==>
        plan.result.Ok? && Execute(plan.world, plan.result.value, requireOwners).ok
  {
  }

  lemma PlanIs(w: World, crs: seq<Object>, rest: seq<Call>)
    requires Listing(crs)
    ensures Planned(w, Plan(w, crs, SecretNames(crs)), FateOf(PlanCalls(w, crs) + rest, w.faults), rest)
    ensures Plan(w, crs, SecretNames(crs)).result.Ok? ==>
      AllPlannable(w, crs) && Plan(w, crs, SecretNames(crs)).result.value == AllToMove(w, crs)
  {
    forall i | 0 <= i < |crs| ensures NameFor(SecretNames(crs), crs[i].uid) == SecretName(crs[i]) {
      NamesFaithful(crs, i);
    }
    PlanScript(w, crs, SecretNames(crs), rest);
  }

  /** For every listing, whether a move succeeds, and whether a failed one restores the target, is decided by
      the fate of its calls, which is known before the call. */
  lemma RestoredByScript(w: World, crs: seq<Object>, requireOwners: bool)
    requires Listing(crs)
    ensures var outcome, fate := Moved(w, crs, requireOwners, false), FateOf(CallsOf(w, crs, requireOwners), w.faults);
      && (outcome.ok <==> fate.Through?)
      && (fate.Stopped? ==> (outcome.world.target == w.target <==> Restores(fate)))
  {
    var rest := if AllPlannable(w, crs) then MoveCalls(w.target.Keys, AllToMove(w, crs), requireOwners) else [];
    PlanIs(w, crs, rest);
    MovedUnfolds(w, crs, requireOwners);
    var plan := Plan(w, crs, SecretNames(crs));
    if plan.result.Ok? { ExecuteScript(plan.world, plan.result.value, requireOwners); }
    if !Moved(w, crs, requireOwners, false).ok { RestoredIff(w, crs, requireOwners); }
  }

  // ----- Classes of scripts -------------------------------------------------------------------------------------

  function Rejections(faults: seq<Fault>): nat {
    if faults == [] then 0 else (if faults[0] == Rejected then 1 else 0) + Rejections(faults[1..])
  }

  predicate InClass(faults: seq<Fault>, lostReplies: bool, rejections: nat) {
    (lostReplies || LostReply !in faults) && Rejections(faults) <= rejections
  }

  /** The move would succeed on a calm network. */
  ghost predicate Calm(w: World, crs: seq<Object>, requireOwners: bool) {
    Moved(w.(faults := []), crs, requireOwners, false).ok
  }

  /** A move of a listing fails under a script of the class; `alone` says whether it may be one that fails on
      a calm network too. */
  ghost predicate Fails(w: World, crs: seq<Object>, requireOwners: bool,
                        alone: bool, lostReplies: bool, rejections: nat)
  {
    && Listing(crs) && (alone || Calm(w, crs, requireOwners))
    && InClass(w.faults, lostReplies, rejections) && !Moved(w, crs, requireOwners, false).ok
  }

  /** Every such move leaves the target as it was. */
  ghost predicate AlwaysRestores(alone: bool, lostReplies: bool, rejections: nat) {
    forall w, crs, requireOwners :: Fails(w, crs, requireOwners, alone, lostReplies, rejections) ==>
      Moved(w, crs, requireOwners, false).world.target == w.target
  }

  lemma {:induction false} RejectionCounts(faults: seq<Fault>, i: nat)
    requires FaultAt(faults, i) == Rejected
    ensures Rejections(faults) >= 1
  {
    if i > 0 { RejectionCounts(faults[1..], i - 1); }
  }

  /** Without lost replies no create goes unnoticed, and a fault that stops the move is a rejection used up. */
  lemma {:induction false} FateUsesUp(calls: seq<Call>, faults: seq<Fault>)
    requires FateOf(calls, faults).Stopped? && LostReply !in faults
    ensures var fate := FateOf(calls, faults);
      !fate.stray && Rejections(fate.later) + (if Dead in calls then 0 else 1) <= Rejections(faults)
  {
    if calls[0] != Dead && FaultAt(faults, 0) == NoFault { FateUsesUp(calls[1..], Tail(faults)); }
  }

  lemma {:induction false} CalmFate(calls: seq<Call>)
    ensures FateOf(calls, []).Through? <==> Dead !in calls
  {
    if calls != [] { CalmFate(calls[1..]); }
  }

  lemma CalmCalls(w: World, crs: seq<Object>, requireOwners: bool)
    requires Listing(crs)
    ensures Calm(w, crs, requireOwners) <==> Dead !in CallsOf(w, crs, requireOwners)
  {
    SamePlan(w, [], crs);
    RestoredByScript(w.(faults := []), crs, requireOwners);
    CalmFate(CallsOf(w, crs, requireOwners));
  }

  lemma FewRejectionsRestore(w: World, crs: seq<Object>, requireOwners: bool, alone: bool)
    requires Fails(w, crs, requireOwners, alone, false, if alone then 0 else 1)
    ensures Moved(w, crs, requireOwners, false).world.target == w.target
  {
    RestoredByScript(w, crs, requireOwners);
    CalmCalls(w, crs, requireOwners);
    var fate := FateOf(CallsOf(w, crs, requireOwners), w.faults);
    FateUsesUp(CallsOf(w, crs, requireOwners), w.faults);
    forall i: nat | i < fate.created ensures FaultAt(fate.later, i) != Rejected {
      if FaultAt(fate.later, i) == Rejected { RejectionCounts(fate.later, i); }
    }
  }

  // ----- Where the promise breaks ----------------------------------------------------------------------------------

  predicate IsBare(o: Object) {
    o.key.kind == HTTPBootConfig && o.ignitionSecretRef.None?
  }

  function BareCR(name: string, uid: nat, owners: seq<OwnerReference>): Object {
    Object(Key(HTTPBootConfig, "default", name), BOOT_GROUP, uid, 1, 1, 1, "", owners, None, map[], map[])
  }

  /** Two CRs without secrets, to be moved to an empty target. */
  function TwoCRs(a: Object, b: Object, faults: seq<Fault>): World {
    World(map[a.key := a, b.key := b], map[], faults, 0)
  }

  lemma ToMoveCons(w: World, cr: Object, rest: seq<Object>)
    requires AllPlannable(w, [cr] + rest) && AllPlannable(w, rest) && Plannable(w, cr)
    ensures AllToMove(w, [cr] + rest) == ToMove(w, cr) + AllToMove(w, rest)
  {
    assert ([cr] + rest)[1..] == rest;
  }

  lemma TwoToMove(w: World, a: Object, b: Object)
    requires IsBare(a) && IsBare(b) && a.key !in w.target && b.key !in w.target
    ensures AllPlannable(w, [a] + ([b] + [])) && AllToMove(w, [a] + ([b] + [])) == [a] + ([b] + [])
  {
    assert Plannable(w, a) && Plannable(w, b);
    ToMoveCons(w, a, [b] + []);
    ToMoveCons(w, b, []);
    assert ToMove(w, a) == [a] && ToMove(w, b) == [b];
  }

  lemma PlanCallsCons(w: World, cr: Object, rest: seq<Object>)
    ensures PlanCalls(w, [cr] + rest) == PlanCallsOf(w, cr) + PlanCalls(w, rest)
  {
    assert ([cr] + rest)[1..] == rest;
  }

  lemma MoveCallsCons(keys: set<Key>, o: Object, rest: seq<Object>, requireOwners: bool)
    requires o.key !in keys
    ensures MoveCalls(keys, [o] + rest, requireOwners) ==
      OwnerCalls(keys, o, requireOwners) + ([ObjectCreate] + MoveCalls(keys + {o.key}, rest, requireOwners))
  {
    assert ([o] + rest)[1..] == rest;
  }

  lemma TwoPlanCalls(w: World, a: Object, b: Object)
    requires IsBare(a) && IsBare(b) && w.target == map[]
    ensures PlanCalls(w, [a] + ([b] + [])) == [ObjectGet, ObjectGet]
  {
    PlanCallsCons(w, a, [b] + []);
    PlanCallsCons(w, b, []);
    assert PlanCallsOf(w, a) == [ObjectGet] && PlanCallsOf(w, b) == [ObjectGet];
    assert PlanCalls(w, []) == [];
  }

  lemma TwoMoveCalls(a: Object, b: Object, requireOwners: bool)
    requires IsBare(a) && IsBare(b) && a.key != b.key && !Owned(a) && (requireOwners <==> Owned(b))
    ensures MoveCalls({}, [a] + ([b] + []), requireOwners) == [ObjectCreate] + AfterFirst(requireOwners)
  {
    MoveCallsCons({}, a, [b] + [], requireOwners);
    MoveCallsCons({} + {a.key}, b, [], requireOwners);
    assert OwnerCalls({}, a, requireOwners) == [];
    assert OwnerCalls({} + {a.key}, b, requireOwners) == if requireOwners then [Dead] else [];
  }

  function Pair(a: Object, b: Object): seq<Object> {
    [a] + ([b] + [])
  }

  lemma GetsFirst(rest: seq<Call>)
    ensures [ObjectGet, ObjectGet] + rest == [ObjectGet] + ([ObjectGet] + rest)
  {
  }

  /** The second CR either goes through or, with an owner that is required and missing, ends the move. */
  lemma TwoCalls(w: World, a: Object, b: Object, requireOwners: bool)
    requires IsBare(a) && IsBare(b) && a.key != b.key && !Owned(a) && (requireOwners <==> Owned(b)) && w.target == map[]
    ensures CallsOf(w, Pair(a, b), requireOwners) == TwoCallsOf(requireOwners)
  {
    assert w.target.Keys == {};
    TwoToMove(w, a, b);
    TwoPlanCalls(w, a, b);
    TwoMoveCalls(a, b, requireOwners);
    GetsFirst([ObjectCreate] + AfterFirst(requireOwners));
  }

  function AfterFirst(alone: bool): seq<Call> {
    (if alone then [Dead] else []) + ([ObjectCreate] + [])
  }

  function TwoCallsOf(alone: bool): seq<Call> {
    [ObjectGet] + ([ObjectGet] + ([ObjectCreate] + AfterFirst(alone)))
  }

  lemma KeysDiffer()
    ensures BareCR("a", 1, []).key != BareCR("b", 2, []).key
  {
    assert "a"[0] != "b"[0];
  }

  /** A script that breaks the promise for a move of two CRs, the second with an owner that is required but
      missing, or with none. */
  lemma Breaks(faults: seq<Fault>, alone: bool, lostReplies: bool, rejections: nat)
    requires InClass(faults, lostReplies, rejections)
    requires
      var fate := FateOf(TwoCallsOf(alone), faults);
      fate.Stopped? && !Restores(fate)
    ensures !AlwaysRestores(alone, lostReplies, rejections)
  {
    var a, b := BareCR("a", 1, []), BareCR("b", 2, if alone then [OwnerReference("b", 3, true)] else []);
    var w := TwoCRs(a, b, faults);
    KeysDiffer();
    TwoCalls(w, a, b, alone);
    RestoredByScript(w, Pair(a, b), alone);
    if !alone { TwoAreCalm(w, a, b); }
    assert Fails(w, Pair(a, b), alone, alone, lostReplies, rejections);
  }

  lemma TwoAreCalm(w: World, a: Object, b: Object)
    requires IsBare(a) && IsBare(b) && a.key != b.key && a.uid != b.uid && !Owned(a) && !Owned(b) && w.target == map[]
    ensures Listing(Pair(a, b)) && Calm(w, Pair(a, b), false)
  {
    TwoCalls(w, a, b, false);
    assert TwoCallsOf(false) == [ObjectGet, ObjectGet, ObjectCreate, ObjectCreate];
    CalmCalls(w, Pair(a, b), false);
  }

  lemma RejectionsCons(fault: Fault, faults: seq<Fault>)
    ensures Rejections([fault] + faults) == (if fault == Rejected then 1 else 0) + Rejections(faults)
    ensures Tail([fault] + faults) == faults && FaultAt([fault] + faults, 0) == fault
  {
    assert ([fault] + faults)[1..] == faults;
  }

  lemma FirstTwoGets(calls: seq<Call>, faults: seq<Fault>)
    ensures FateOf([ObjectGet] + ([ObjectGet] + calls), [NoFault] + ([NoFault] + faults)) == FateOf(calls, faults)
    ensures Rejections([NoFault] + ([NoFault] + faults)) == Rejections(faults)
  {
    RejectionsCons(NoFault, faults);
    RejectionsCons(NoFault, [NoFault] + faults);
    FateCons(ObjectGet, calls, [NoFault] + faults);
    FateCons(ObjectGet, [ObjectGet] + calls, [NoFault] + ([NoFault] + faults));
  }

  /** The second create is rejected, and so is the delete of the first CR. */
  lemma TwoRejectionsBreak(rejections: nat)
    requires rejections >= 2
    ensures !AlwaysRestores(false, false, rejections)
  {
    var f3 := [Rejected] + ([Rejected] + []);
    var calls := [ObjectCreate] + AfterFirst(false);
    RejectionsCons(Rejected, []);
    RejectionsCons(Rejected, [Rejected] + []);
    RejectionsCons(NoFault, f3);
    FateCons(ObjectCreate, [], f3);
    assert AfterFirst(false) == [ObjectCreate] + [];
    FateCons(ObjectCreate, [ObjectCreate] + [], [NoFault] + f3);
    FirstTwoGets(calls, [NoFault] + f3);
    Breaks([NoFault] + ([NoFault] + ([NoFault] + f3)), false, false, rejections);
  }

  /** The owner of the second CR is missing, and the delete of the first is rejected. */
  lemma OneRejectionBreaks(rejections: nat)
    requires rejections >= 1
    ensures !AlwaysRestores(true, false, rejections)
  {
    var f3 := [NoFault] + ([Rejected] + []);
    var rest := [Dead] + ([ObjectCreate] + []);
    RejectionsCons(Rejected, []);
    RejectionsCons(NoFault, [Rejected] + []);
    RejectionsCons(NoFault, f3);
    FateCons(Dead, [ObjectCreate] + [], f3);
    FateCons(ObjectCreate, rest, [NoFault] + f3);
    FirstTwoGets([ObjectCreate] + rest, [NoFault] + f3);
    Breaks([NoFault] + ([NoFault] + ([NoFault] + f3)), true, false, rejections);
  }

  /** The reply to the first create is lost. */
  lemma LostReplyBreaks(alone: bool, rejections: nat)
    ensures !AlwaysRestores(alone, true, rejections)
  {
    var faults := [LostReply] + [];
    var rest := AfterFirst(alone);
    RejectionsCons(LostReply, []);
    FateCons(ObjectCreate, rest, faults);
    FirstTwoGets([ObjectCreate] + rest, faults);
    Breaks([NoFault] + ([NoFault] + faults), alone, true, rejections);
  }

  /** The documented promise over a class of scripts.  It holds for all moves exactly if no reply is lost and
      no call rejected, and for the moves that would succeed on a calm network exactly if no reply is lost and
      at most one call rejected. */
  lemma AlwaysRestoresIff(alone: bool, lostReplies: bool, rejections: nat)
    ensures AlwaysRestores(alone, lostReplies, rejections) <==> !lostReplies && rejections <= if alone then 0 else 1
  {
    if lostReplies {
      LostReplyBreaks(alone, rejections);
    } else if alone && rejections >= 1 {
      OneRejectionBreaks(rejections);
    } else if rejections >= 2 {
      TwoRejectionsBreak(rejections);
    } else {
      forall w, crs, requireOwners | Fails(w, crs, requireOwners, alone, lostReplies, rejections)
        ensures Moved(w, crs, requireOwners, false).world.target == w.target
      {
        assert Fails(w, crs, requireOwners, alone, false, if alone then 0 else 1);
        FewRejectionsRestore(w, crs, requireOwners, alone);
      }
    }
  }
}
