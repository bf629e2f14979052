/** The invariants of the ServerBootConfiguration status, over every run, and exactly when they hold. */
module StatusProofs {
  import opened Wrappers
  import opened StatusMachine

  // ----- Condition lists ---------------------------------------------------------------------------------

  lemma {:induction false} SetKeeps(conditions: seq<Condition>, c: Condition)
    ensures Kinds(Set(conditions, c)) == Kinds(conditions) + {c.kind}
    ensures Distinct(conditions) ==> Distinct(Set(conditions, c))
    ensures c in Set(conditions, c)
    ensures forall d :: d in conditions && d.kind != c.kind ==> d in Set(conditions, c)
  {
    if conditions != [] && conditions[0].kind != c.kind {
      SetKeeps(conditions[1..], c);
      assert Set(conditions, c)[1..] == Set(conditions[1..], c);
    } else if conditions != [] {
      assert Set(conditions, c)[1..] == conditions[1..];
    }
  }

  lemma {:induction false} RemoveKeeps(conditions: seq<Condition>, kind: string)
    ensures Kinds(Remove(conditions, kind)) == Kinds(conditions) - {kind}
    ensures Distinct(conditions) ==> Distinct(Remove(conditions, kind))
  {
    if conditions != [] {
      RemoveKeeps(conditions[1..], kind);
      var rest := Remove(conditions[1..], kind);
      assert ([conditions[0]] + rest)[1..] == rest;
      assert [] + rest == rest;
    }
  }

  lemma {:induction false} SetAllKeeps(conditions: seq<Condition>, cs: seq<Condition>)
    ensures Kinds(SetAll(conditions, cs)) == Kinds(conditions) + Kinds(cs)
    ensures Distinct(conditions) ==> Distinct(SetAll(conditions, cs))
    decreases |cs|
  {
    if cs != [] {
      SetKeeps(conditions, cs[0]);
      SetAllKeeps(Set(conditions, cs[0]), cs[1..]);
    }
  }

  lemma {:induction false} SetAllFrame(conditions: seq<Condition>, cs: seq<Condition>, d: Condition)
    requires d in conditions && !Has(cs, d.kind)
    ensures d in SetAll(conditions, cs)
    decreases |cs|
  {
    if cs != [] {
      SetKeeps(conditions, cs[0]);
      SetAllFrame(Set(conditions, cs[0]), cs[1..], d);
    }
  }

  /** The child-state patch mirrors every condition of the child, and keeps the others but the removed one. */
  lemma {:induction false} SetAllMirrors(conditions: seq<Condition>, cs: seq<Condition>)
    requires Distinct(cs)
    ensures forall c :: c in cs ==> c in SetAll(conditions, cs)
    decreases |cs|
  {
    if cs != [] {
      SetKeeps(conditions, cs[0]);
      SetAllMirrors(Set(conditions, cs[0]), cs[1..]);
      SetAllFrame(Set(conditions, cs[0]), cs[1..], cs[0]);
    }
  }

  // ----- One patch ---------------------------------------------------------------------------------------

  /** A patch against the current object writes exactly the modified one. */
  lemma FreshPatch(server: Status, modified: Status)
    ensures MergePatch(server, server, modified) == modified
  {
  }

  lemma ErrorPatchSound(cur: Status, message: string, generation: int)
    requires Sound(cur)
    ensures Sound(WithError(cur, message, generation))
    ensures Has(WithError(cur, message, generation).conditions, IMAGE_VALIDATION)
  {
    SetKeeps(cur.conditions, ValidationFailed(message, generation));
  }

  lemma ChildPatchSound(cur: Status, child: Status)
    requires Sound(cur) && Served(child.conditions)
    ensures Sound(FromChild(cur, child))
    ensures Has(FromChild(cur, child).conditions, IMAGE_VALIDATION) <==>
      Has(cur.conditions, IMAGE_VALIDATION) && child.state != Ready
    ensures forall c :: c in child.conditions ==> c in FromChild(cur, child).conditions
  {
    var conditions := if child.state == Ready then Remove(cur.conditions, IMAGE_VALIDATION) else cur.conditions;
    RemoveKeeps(cur.conditions, IMAGE_VALIDATION);
    SetAllKeeps(conditions, child.conditions);
    SetAllMirrors(conditions, child.conditions);
  }

  lemma RequestSound(base: seq<Condition>, server: seq<Condition>, kind: string)
    requires Served(base) && Served(server) && Predefined(kind).Some?
    ensures Served(Set(base, Predefined(kind).value))
  {
    SetKeeps(base, Predefined(kind).value);
  }

  // ----- What a patch writes -----------------------------------------------------------------------------

  lemma {:induction false} SetOnly(conditions: seq<Condition>, c: Condition)
    requires Distinct(conditions)
    ensures forall d :: d in Set(conditions, c) <==> d == c || (d in conditions && d.kind != c.kind)
  {
    if conditions != [] {
      SetOnly(conditions[1..], c);
      HasKind(conditions[1..], c.kind);
    }
  }

  lemma {:induction false} HasKind(conditions: seq<Condition>, kind: string)
    ensures Has(conditions, kind) <==> exists c :: c in conditions && c.kind == kind
  {
    if conditions != [] {
      HasKind(conditions[1..], kind);
      assert conditions[0] in conditions;
      if c :| c in conditions[1..] && c.kind == kind { assert c in conditions; }
      if c :| c in conditions && c.kind == kind && c != conditions[0] { assert c in conditions[1..]; }
    }
  }

  lemma {:induction false} RemoveOnly(conditions: seq<Condition>, kind: string)
    ensures forall d :: d in Remove(conditions, kind) <==> d in conditions && d.kind != kind
  {
    if conditions != [] { RemoveOnly(conditions[1..], kind); }
  }

  lemma {:induction false} SetAllOnly(conditions: seq<Condition>, cs: seq<Condition>)
    requires Distinct(conditions) && Distinct(cs)
    ensures forall d :: d in SetAll(conditions, cs) <==>
      d in cs || (d in conditions && forall c :: c in cs ==> c.kind != d.kind)
    decreases |cs|
  {
    if cs != [] {
      SetKeeps(conditions, cs[0]);
      SetOnly(conditions, cs[0]);
      HasKind(cs[1..], cs[0].kind);
      SetAllOnly(Set(conditions, cs[0]), cs[1..]);
      assert cs == [cs[0]] + cs[1..];
    }
  }

  /** The child patch, from a current base: Ready and Error are taken over from the child, any other state
      leaves the state alone; the conditions are those of the child, and of the others all but, on Ready, a
      failed image validation. */
  lemma ChildPatchWrites(flavour: Flavour, s: System, id: nat)
    requires Inv(s) && CanPatchChild(flavour, s, id) && BaseCurrent(flavour, s, PatchChild(id))
    ensures var before, after := s.sbc.stored, Next(flavour, s, PatchChild(id)).sbc.stored;
      var child := s.reconciles[id].child.value;
      && (child.state == Ready ==> after.state == Ready)
      && (child.state == Error ==> after.state == Error)
      && (child.state != Ready && child.state != Error ==> after.state == before.state)
      && forall d :: d in after.conditions <==>
           || d in child.conditions
           || (d in before.conditions && (forall c :: c in child.conditions ==> c.kind != d.kind)
               && !(child.state == Ready && d.kind == "ImageValidation"))
  {
    var before, child := s.sbc.stored, s.reconciles[id].child.value;
    FreshPatch(before, FromChild(before, child));
    RemoveKeeps(before.conditions, IMAGE_VALIDATION);
    RemoveOnly(before.conditions, IMAGE_VALIDATION);
    SetAllOnly(if child.state == Ready then Remove(before.conditions, IMAGE_VALIDATION) else before.conditions,
               child.conditions);
  }

  /** The error patch, from a current base: the state is Error, and the image validation has failed with the
      message; all other conditions stay. */
  lemma ErrorPatchWrites(flavour: Flavour, s: System, id: nat, message: string, generation: int)
    requires Inv(s) && CanPatchError(s, id) && BaseCurrent(flavour, s, PatchError(id, message, generation))
    ensures var before, after := s.sbc.stored, Next(flavour, s, PatchError(id, message, generation)).sbc.stored;
      && after.state == Error
      && forall d :: d in after.conditions <==>
           || d == Condition("ImageValidation", false, "ValidationFailed", message, generation)
           || (d in before.conditions && d.kind != "ImageValidation")
  {
    FreshPatch(s.sbc.stored, WithError(s.sbc.stored, message, generation));
    SetOnly(s.sbc.stored.conditions, ValidationFailed(message, generation));
  }

  lemma PredefinedIs(kind: string)
    requires kind == "IgnitionDataFetched" || kind == "IPXEScriptFetched"
    ensures Predefined(kind).Some? && Predefined(kind).value.kind == kind && Predefined(kind).value.status
  {
  }

  /** The boot server, from a current base, reports a delivery, and leaves all else alone. */
  lemma RequestWritesCondition(flavour: Flavour, s: System, request: nat, kind: string)
    requires Inv(s) && request in s.requests && s.requests[request] == s.child.stored.conditions
    requires kind == "IgnitionDataFetched" || kind == "IPXEScriptFetched"
    ensures var before, after := s.child.stored, Next(flavour, s, RequestWrites(request, kind)).child.stored;
      && after.state == before.state
      && (exists c :: c in after.conditions && c.kind == kind && c.status)
      && forall d: Condition :: d.kind != kind ==> (d in after.conditions <==> d in before.conditions)
  {
    PredefinedIs(kind);
    SetOnly(s.child.stored.conditions, Predefined(kind).value);
    RequestStores(flavour, s, request, kind);
  }

  lemma RequestStores(flavour: Flavour, s: System, request: nat, kind: string)
    requires request in s.requests && s.requests[request] == s.child.stored.conditions && Predefined(kind).Some?
    ensures var before, after := s.child.stored, Next(flavour, s, RequestWrites(request, kind)).child.stored;
      after == before.(conditions := Set(before.conditions, Predefined(kind).value))
  {
  }

  // ----- Every run ---------------------------------------------------------------------------------------

  lemma ReplicaServed(r: Replica, now: Status)
    requires ChildServed(r) && Served(now.conditions)
    ensures ChildServed(Write(r, now)) && ChildServed(Deliver(r))
  {
  }

  lemma ChildEventKeeps(flavour: Flavour, s: System, e: Event)
    requires Inv(s) && (e.DeliverChild? || e.ChildState? || e.RequestWrites?)
    ensures Inv(Next(flavour, s, e))
  {
    match e
    case ChildState(state) => ReplicaServed(s.child, s.child.stored.(state := state));
    case RequestWrites(request, kind) =>
      if request in s.requests && Predefined(kind).Some? {
        var base, stored := s.requests[request], s.child.stored;
        var modified := Set(base, Predefined(kind).value);
        RequestSound(base, stored.conditions, kind);
        ReplicaServed(s.child, MergePatch(stored, stored.(conditions := base), stored.(conditions := modified)));
      }
    case _ => ReplicaServed(s.child, s.child.stored);
  }

  lemma PatchErrorKeeps(flavour: Flavour, s: System, e: Event)
    requires Inv(s) && e.PatchError? && BaseCurrent(flavour, s, e)
    ensures Inv(Next(flavour, s, e))
  {
    if CanPatchError(s, e.reconcile) {
      ErrorPatchSound(s.sbc.stored, e.message, e.generation);
      FreshPatch(s.sbc.stored, WithError(s.sbc.stored, e.message, e.generation));
    }
  }

  lemma PatchChildKeeps(flavour: Flavour, s: System, e: Event)
    requires Inv(s) && e.PatchChild? && BaseCurrent(flavour, s, e)
    ensures Inv(Next(flavour, s, e))
  {
    if CanPatchChild(flavour, s, e.reconcile) {
      var child := s.reconciles[e.reconcile].child.value;
      ChildPatchSound(s.sbc.stored, child);
      FreshPatch(s.sbc.stored, FromChild(s.sbc.stored, child));
    }
  }

  lemma NextKeeps(flavour: Flavour, s: System, e: Event)
    requires Inv(s) && BaseCurrent(flavour, s, e)
    ensures Inv(Next(flavour, s, e))
  {
    match e
    case PatchError(_, _, _) => PatchErrorKeeps(flavour, s, e);
    case PatchChild(_) => PatchChildKeeps(flavour, s, e);
    case DeliverChild => ChildEventKeeps(flavour, s, e);
    case ChildState(_) => ChildEventKeeps(flavour, s, e);
    case RequestWrites(_, _) => ChildEventKeeps(flavour, s, e);
    case _ =>
  }

  lemma {:induction false} RunKeeps(flavour: Flavour, s: System, events: seq<Event>)
    requires Inv(s) && AlwaysCurrent(flavour, s, events)
    ensures Inv(Run(flavour, s, events))
    decreases |events|
  {
    if events != [] {
      NextKeeps(flavour, s, events[0]);
      RunKeeps(flavour, Next(flavour, s, events[0]), events[1..]);
    }
  }

  /** Over every run whose patches are computed from what the API server still stores: condition types
      stay distinct, Ready excludes a failed image validation, such a condition implies Error, and it is
      there exactly if the last patch deciding about it was the error patch. */
  lemma StatusSound(flavour: Flavour, s: System, events: seq<Event>)
    requires Init(s) && AlwaysCurrent(flavour, s, events)
    ensures var t := Run(flavour, s, events);
      Sound(t.sbc.stored) && (Has(t.sbc.stored.conditions, IMAGE_VALIDATION) <==> t.failing)
  {
    RunKeeps(flavour, s, events);
  }

  // ----- Serialised reconciles that read fresh objects -----------------------------------------------------

  lemma OnlyOne(m: map<nat, Reconcile>, id: nat)
    requires id in m && |m| <= 1
    ensures m - {id} == map[]
  {
    assert m.Keys == {id} by {
      assert |m.Keys - {id}| == 0;
    }
  }

  lemma PatchesUndisturbed(flavour: Flavour, s: System, e: Event)
    requires Undisturbed(s) && (e.PatchError? || e.PatchChild? || e.GiveUp?)
    ensures Undisturbed(Next(flavour, s, e))
  {
    if e.reconcile in s.reconciles { OnlyOne(s.reconciles, e.reconcile); }
  }

  lemma ReadsUndisturbed(flavour: Flavour, s: System, e: Event)
    requires Undisturbed(s) && (e.ReadChild? || e.GetCurrent?) && ReadsFresh(s, e)
    ensures Undisturbed(Next(flavour, s, e))
  {
    if e.reconcile in s.reconciles {
      assert Next(flavour, s, e).reconciles.Keys == s.reconciles.Keys;
    }
  }

  lemma DeliverUndisturbed(flavour: Flavour, s: System)
    requires Undisturbed(s) && Caught(s.sbc)
    ensures Undisturbed(Next(flavour, s, DeliverConfiguration))
  {
  }

  /** The last version on its way is the stored one. */
  ghost predicate Caught(r: Replica) {
    r.stored == if r.stream == [] then r.cached else r.stream[|r.stream| - 1]
  }

  lemma OthersUndisturbed(flavour: Flavour, s: System, e: Event)
    requires Undisturbed(s) && StartsAlone(s, e) && ReadsFresh(s, e)
    requires !e.DeliverConfiguration? && !e.PatchError? && !e.PatchChild? && !e.GiveUp? && !e.ReadChild? &&
        !e.GetCurrent?
    ensures Undisturbed(Next(flavour, s, e))
  {
  }

  lemma NextCaught(flavour: Flavour, s: System, e: Event)
    requires Caught(s.sbc)
    ensures Caught(Next(flavour, s, e).sbc)
  {
  }

  lemma NextUndisturbed(flavour: Flavour, s: System, e: Event)
    requires Undisturbed(s) && Caught(s.sbc) && StartsAlone(s, e) && ReadsFresh(s, e)
    ensures Undisturbed(Next(flavour, s, e))
  {
    match e
    case DeliverConfiguration => DeliverUndisturbed(flavour, s);
    case PatchError(_, _, _) => PatchesUndisturbed(flavour, s, e);
    case PatchChild(_) => PatchesUndisturbed(flavour, s, e);
    case GiveUp(_) => PatchesUndisturbed(flavour, s, e);
    case ReadChild(_) => ReadsUndisturbed(flavour, s, e);
    case GetCurrent(_) => ReadsUndisturbed(flavour, s, e);
    case _ => OthersUndisturbed(flavour, s, e);
  }

  lemma {:induction false} SerialisedIsCurrent(flavour: Flavour, s: System, events: seq<Event>)
    requires Undisturbed(s) && Caught(s.sbc) && InClass(flavour, s, events, false, false)
    ensures AlwaysCurrent(flavour, s, events)
    decreases |events|
  {
    if events != [] {
      NextUndisturbed(flavour, s, events[0]);
      NextCaught(flavour, s, events[0]);
      SerialisedIsCurrent(flavour, Next(flavour, s, events[0]), events[1..]);
    }
  }

  // ----- Exactly when -------------------------------------------------------------------------------------

  ghost predicate AlwaysSound(flavour: Flavour, interleaved: bool, lagging: bool) {
    forall s, events :: Init(s) && InClass(flavour, s, events, interleaved, lagging) ==>
      Sound(Run(flavour, s, events).sbc.stored)
  }

  function Rest(): System {
    var sbc, child := Status(Pending, []), Status(Ready, []);
    System(Replica(sbc, sbc, []), Replica(child, child, []), map[], map[], false)
  }

  const FAILED := Status(Error, [ValidationFailed("registry not allowed", 1)])

  /** What an error patch leaves, with the cache behind. */
  function Behind(): Replica {
    Replica(FAILED, Status(Pending, []), [FAILED])
  }

  /** The base is behind: the patch writes Ready next to the failed image validation. */
  lemma StalePatchUnsound(server: Status, base: Status)
    requires base == Status(Pending, []) && server == FAILED
    ensures !Sound(MergePatch(server, base, FromChild(base, Status(Ready, []))))
  {
    assert FromChild(base, Status(Ready, [])) == Status(Ready, []);
    assert Has(FAILED.conditions, IMAGE_VALIDATION);
  }

  lemma RunCons(flavour: Flavour, s: System, e: Event, events: seq<Event>)
    ensures Run(flavour, s, [e] + events) == Run(flavour, Next(flavour, s, e), events)
  {
    assert ([e] + events)[1..] == events;
  }

  lemma InClassCons(flavour: Flavour, s: System, e: Event, events: seq<Event>, interleaved: bool, lagging: bool)
    requires (interleaved || StartsAlone(s, e)) && (lagging || ReadsFresh(s, e))
    requires InClass(flavour, Next(flavour, s, e), events, interleaved, lagging)
    ensures InClass(flavour, s, [e] + events, interleaved, lagging)
  {
    assert ([e] + events)[1..] == events;
  }

  /** `e` leads from `s` to `t`, from where `events` end in an unsound status: so do `e` and `events` from `s`. */
  ghost predicate Breaks(flavour: Flavour, s: System, events: seq<Event>, interleaved: bool, lagging: bool) {
    InClass(flavour, s, events, interleaved, lagging) && !Sound(Run(flavour, s, events).sbc.stored)
  }

  lemma BreaksCons(flavour: Flavour, s: System, e: Event, events: seq<Event>, interleaved: bool, lagging: bool)
    requires (interleaved || StartsAlone(s, e)) && (lagging || ReadsFresh(s, e))
    requires Breaks(flavour, Next(flavour, s, e), events, interleaved, lagging)
    ensures Breaks(flavour, s, [e] + events, interleaved, lagging)
  {
    RunCons(flavour, s, e, events);
    InClassCons(flavour, s, e, events, interleaved, lagging);
  }

  /** A reconcile that is about to patch from an old base. */
  lemma LastStep(flavour: Flavour, s: System, id: nat, interleaved: bool, lagging: bool)
    requires s.sbc.stored == FAILED && CanPatchChild(flavour, s, id)
    requires s.reconciles[id].child.value == Status(Ready, [])
    requires ChildBase(flavour, s.reconciles[id]).value == Status(Pending, [])
    ensures Breaks(flavour, s, [PatchChild(id)] + [], interleaved, lagging)
  {
    StalePatchUnsound(s.sbc.stored, Status(Pending, []));
    var t := Next(flavour, s, PatchChild(id));
    assert Run(flavour, t, []) == t;
    BreaksCons(flavour, s, PatchChild(id), [], interleaved, lagging);
  }

  lemma ErrorPatched(flavour: Flavour, s: System, id: nat)
    requires CanPatchError(s, id) && s.reconciles[id].current.value == Status(Pending, [])
    requires s.sbc == Replica(Status(Pending, []), Status(Pending, []), [])
    ensures Next(flavour, s, PatchError(id, "registry not allowed", 1)) ==
      s.(sbc := Behind(), reconciles := s.reconciles - {id}, failing := true)
  {
    var base := Status(Pending, []);
    assert WithError(base, "registry not allowed", 1) == FAILED;
    FreshPatch(base, FAILED);
    assert [] + [FAILED] == [FAILED];
  }

  /** A reconcile starts and gets the object in order to patch an error. */
  lemma StartToFail(flavour: Flavour, s: System, id: nat, events: seq<Event>, interleaved: bool, lagging: bool)
    requires id !in s.reconciles && (interleaved || s.reconciles == map[]) && (lagging || s.sbc.stream == [])
    requires Breaks(flavour, s.(reconciles := s.reconciles[id := Reconcile(s.sbc.cached, Some(s.sbc.cached), None)]),
                    events, interleaved, lagging)
    ensures Breaks(flavour, s, [Start(id)] + ([GetCurrent(id)] + events), interleaved, lagging)
  {
    var s1 := s.(reconciles := s.reconciles[id := Reconcile(s.sbc.cached, None, None)]);
    var s2 := s.(reconciles := s.reconciles[id := Reconcile(s.sbc.cached, Some(s.sbc.cached), None)]);
    assert Next(flavour, s1, GetCurrent(id)) == s2;
    BreaksCons(flavour, s1, GetCurrent(id), events, interleaved, lagging);
    BreaksCons(flavour, s, Start(id), [GetCurrent(id)] + events, interleaved, lagging);
  }

  /** A reconcile starts, reads the child, and gets the object in order to patch the state of the child. */
  lemma StartToMirror(flavour: Flavour, s: System, id: nat, events: seq<Event>, interleaved: bool, lagging: bool)
    requires id !in s.reconciles && (interleaved || s.reconciles == map[]) && (lagging || s.sbc.stream == [])
    requires Breaks(flavour, Mirroring(s, id), events, interleaved, lagging)
    ensures Breaks(flavour, s, [Start(id)] + ([ReadChild(id)] + ([GetCurrent(id)] + events)), interleaved, lagging)
  {
    var s1 := s.(reconciles := s.reconciles[id := Reconcile(s.sbc.cached, None, None)]);
    var s2 := s.(reconciles := s.reconciles[id := Reconcile(s.sbc.cached, None, Some(s.child.cached))]);
    assert Next(flavour, s2, GetCurrent(id)) == Mirroring(s, id);
    BreaksCons(flavour, s2, GetCurrent(id), events, interleaved, lagging);
    assert Next(flavour, s1, ReadChild(id)) == s2;
    BreaksCons(flavour, s1, ReadChild(id), [GetCurrent(id)] + events, interleaved, lagging);
    BreaksCons(flavour, s, Start(id), [ReadChild(id)] + ([GetCurrent(id)] + events), interleaved, lagging);
  }

  function Mirroring(s: System, id: nat): System {
    s.(reconciles := s.reconciles[id := Reconcile(s.sbc.cached, Some(s.sbc.cached), Some(s.child.cached))])
  }

  /** A reconcile has read a child that is Ready and the object, when another one patches an error. */
  lemma OvertakenUnsound(flavour: Flavour) returns (events: seq<Event>)
    ensures Breaks(flavour, Rest(), events, true, false)
  {
    var pending := Status(Pending, []);
    var s := Mirroring(Rest(), 1);
    var s1 := s.(reconciles := s.reconciles[2 := Reconcile(pending, Some(pending), None)]);
    assert s1.reconciles - {2} == s.reconciles;
    ErrorPatched(flavour, s1, 2);
    LastStep(flavour, s.(sbc := Behind(), failing := true), 1, true, false);
    events := [PatchChild(1)] + [];
    BreaksCons(flavour, s1, PatchError(2, "registry not allowed", 1), events, true, false);
    events := [PatchError(2, "registry not allowed", 1)] + events;
    StartToFail(flavour, s, 2, events, true, false);
    events := [Start(2)] + ([GetCurrent(2)] + events);
    StartToMirror(flavour, Rest(), 1, events, true, false);
    events := [Start(1)] + ([ReadChild(1)] + ([GetCurrent(1)] + events));
  }

  /** A reconcile starts after the error patch, but the cache still shows the object before it. */
  lemma LaggingUnsound(flavour: Flavour) returns (events: seq<Event>)
    ensures Breaks(flavour, Rest(), events, false, true)
  {
    var pending := Status(Pending, []);
    var s := Rest().(sbc := Behind(), failing := true);
    var s1 := Rest().(reconciles := map[1 := Reconcile(pending, Some(pending), None)]);
    LastStep(flavour, Mirroring(s, 2), 2, false, true);
    events := [PatchChild(2)] + [];
    StartToMirror(flavour, s, 2, events, false, true);
    events := [Start(2)] + ([ReadChild(2)] + ([GetCurrent(2)] + events));
    assert s1.reconciles - {1} == map[];
    ErrorPatched(flavour, s1, 1);
    BreaksCons(flavour, s1, PatchError(1, "registry not allowed", 1), events, false, true);
    events := [PatchError(1, "registry not allowed", 1)] + events;
    StartToFail(flavour, Rest(), 1, events, false, true);
    events := [Start(1)] + ([GetCurrent(1)] + events);
  }

  lemma {:induction false} InWiderClass(flavour: Flavour, s: System, events: seq<Event>,
                                        interleaved: bool, lagging: bool, i: bool, l: bool)
    requires InClass(flavour, s, events, interleaved, lagging) && (interleaved ==> i) && (lagging ==> l)
    ensures InClass(flavour, s, events, i, l)
    decreases |events|
  {
    if events != [] { InWiderClass(flavour, Next(flavour, s, events[0]), events[1..], interleaved, lagging, i, l); }
  }

  /** For HTTP and for PXE alike, the invariants hold over all runs exactly if reconciles are serialised and
      read objects that are up to date. */
  lemma SoundIff(flavour: Flavour, interleaved: bool, lagging: bool)
    ensures AlwaysSound(flavour, interleaved, lagging) <==> !interleaved && !lagging
  {
    if !interleaved && !lagging {
      forall s, events | Init(s) && InClass(flavour, s, events, interleaved, lagging)
        ensures Sound(Run(flavour, s, events).sbc.stored)
      {
        SerialisedIsCurrent(flavour, s, events);
        StatusSound(flavour, s, events);
      }
    } else if interleaved {
      var events := OvertakenUnsound(flavour);
      InWiderClass(flavour, Rest(), events, true, false, interleaved, lagging);
      assert Init(Rest());
    } else {
      var events := LaggingUnsound(flavour);
      InWiderClass(flavour, Rest(), events, false, true, interleaved, lagging);
      assert Init(Rest());
    }
  }
}
