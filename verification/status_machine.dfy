/**
 The status of a ServerBootConfiguration, written by the error patch
 (internal/controller/serverbootconfig_helpers.go) and by the child-state patch of the HTTP and PXE
 reconcilers, from a child config whose conditions the boot server writes (server/bootserver.go).

 A patch is two calls: a Get from the operator's cache, which lags behind the API server, and a merge
 patch against what was read, without an optimistic lock.  Anything may happen in between.
 */
module StatusMachine {
  import opened Wrappers

  datatype State = Unset | Pending | Ready | Error

  datatype Condition = Condition(kind: string, status: bool, reason: string, message: string, observedGeneration: int)

  datatype Status = Status(state: State, conditions: seq<Condition>)

  const IMAGE_VALIDATION := "ImageValidation"

  // ----- Condition lists -----------------------------------------------------------------------------

  /** `SetStatusCondition` and `updateCondition`: overwrite the condition of that type or append it. */
  function Set(conditions: seq<Condition>, c: Condition): seq<Condition> {
    if conditions == [] then [c]
    else if conditions[0].kind == c.kind then [c] + conditions[1..]
    else [conditions[0]] + Set(conditions[1..], c)
  }

  function SetAll(conditions: seq<Condition>, cs: seq<Condition>): seq<Condition>
    decreases |cs|
  {
    if cs == [] then conditions else SetAll(Set(conditions, cs[0]), cs[1..])
  }

  /** `RemoveStatusCondition` */
  function Remove(conditions: seq<Condition>, kind: string): seq<Condition> {
    if conditions == [] then []
    else (if conditions[0].kind == kind then [] else [conditions[0]]) + Remove(conditions[1..], kind)
  }

  function Kinds(conditions: seq<Condition>): set<string> {
    if conditions == [] then {} else {conditions[0].kind} + Kinds(conditions[1..])
  }

  predicate Has(conditions: seq<Condition>, kind: string) {
    kind in Kinds(conditions)
  }

  predicate Distinct(conditions: seq<Condition>) {
    conditions != [] ==> !Has(conditions[1..], conditions[0].kind) && Distinct(conditions[1..])
  }

  // ----- The patches -----------------------------------------------------------------------------------

  /** A merge patch: what differs from the base is written, a list as a whole (section 2 of RFC 7396). */
  function MergePatch(server: Status, base: Status, modified: Status): Status {
    Status(if modified.state != base.state then modified.state else server.state,
           if modified.conditions != base.conditions then modified.conditions else server.conditions)
  }

  function ValidationFailed(message: string, generation: int): Condition {
    Condition(IMAGE_VALIDATION, false, "ValidationFailed", message, generation)
  }

  /** `PatchServerBootConfigWithError` before the patch. */
  function WithError(cur: Status, message: string, generation: int): Status {
    Status(Error, Set(cur.conditions, ValidationFailed(message, generation)))
  }

  /** `patchConfigStateFromHTTPState` and `patchConfigStateFromIPXEState` before the patch. */
  function FromChild(cur: Status, child: Status): Status {
    var state := if child.state == Ready then Ready else if child.state == Error then Error else cur.state;
    var conditions := if child.state == Ready then Remove(cur.conditions, IMAGE_VALIDATION) else cur.conditions;
    Status(state, SetAll(conditions, child.conditions))
  }

  /** The conditions the boot server may set. */
  function Predefined(kind: string): Option<Condition> {
    if kind == "IgnitionDataFetched" then
      Some(Condition(kind, true, "IgnitionDataDelivered",
          "Ignition data has been successfully delivered to the client.", 0))
    else if kind == "IPXEScriptFetched" then
      Some(Condition(kind, true, "IPXEScriptDelivered", "IPXE script has been successfully delivered to the client.",
          0))
    else None
  }

  // ----- The machine -----------------------------------------------------------------------------------

  datatype Flavour = HTTP | PXE

  /** A status in the API server, as cached by the operator, and the versions still on their way to the cache. */
  datatype Replica = Replica(stored: Status, cached: Status, stream: seq<Status>)

  function Write(r: Replica, now: Status): Replica {
    if now == r.stored then r else r.(stored := now, stream := r.stream + [now])
  }

  function Deliver(r: Replica): Replica {
    if r.stream == [] then r else r.(cached := r.stream[0], stream := r.stream[1..])
  }

  /** A reconcile under way: the status it read at its start, the status it read again to patch it, and
      the child. */
  datatype Reconcile = Reconcile(started: Status, current: Option<Status>, child: Option<Status>)

  /** `failing` is history: whether the last patch that decides about image validation was the error patch. */
  datatype System = System(
    sbc: Replica,
    child: Replica,
    reconciles: map<nat, Reconcile>,
    requests: map<nat, seq<Condition>>,
    failing: bool)

  datatype Event =
    | DeliverConfiguration
    | DeliverChild
    | ChildState(state: State)
    | RequestReads(request: nat)
    | RequestWrites(request: nat, kind: string)
    | Start(reconcile: nat)
    | ReadChild(reconcile: nat)
    | GetCurrent(reconcile: nat)
    | PatchError(reconcile: nat, message: string, generation: int)
    | PatchChild(reconcile: nat)
    | GiveUp(reconcile: nat)

  /** What the child patch is computed from: the PXE reconciler uses the object it read at its start, the
      HTTP reconciler reads it again. */
  function ChildBase(flavour: Flavour, r: Reconcile): Option<Status> {
    if flavour == PXE then Some(r.started) else r.current
  }

  predicate CanPatchError(s: System, id: nat) {
    id in s.reconciles && s.reconciles[id].current.Some?
  }

  predicate CanPatchChild(flavour: Flavour, s: System, id: nat) {
    id in s.reconciles && s.reconciles[id].child.Some? && ChildBase(flavour, s.reconciles[id]).Some?
  }

  function Next(flavour: Flavour, s: System, e: Event): System {
    match e
    case DeliverConfiguration => s.(sbc := Deliver(s.sbc))
    case DeliverChild => s.(child := Deliver(s.child))
    case ChildState(state) => s.(child := Write(s.child, s.child.stored.(state := state)))
    case RequestReads(request) => s.(requests := s.requests[request := s.child.cached.conditions])
    case RequestWrites(request, kind) =>
      if request !in s.requests || Predefined(kind).None? then s
      else
        var base := s.requests[request];
        var modified := Set(base, Predefined(kind).value);
        var stored := s.child.stored;
        s.(child := Write(s.child, MergePatch(stored, stored.(conditions := base), stored.(conditions := modified))),
           requests := s.requests - {request})
    case Start(id) =>
      if id in s.reconciles then s else s.(reconciles := s.reconciles[id := Reconcile(s.sbc.cached, None, None)])
    case ReadChild(id) =>
      if id !in s.reconciles then s
      else s.(reconciles := s.reconciles[id := s.reconciles[id].(child := Some(s.child.cached))])
    case GetCurrent(id) =>
      if id !in s.reconciles then s
      else s.(reconciles := s.reconciles[id := s.reconciles[id].(current := Some(s.sbc.cached))])
    case PatchError(id, message, generation) =>
      if !CanPatchError(s, id) then s
      else
        var base := s.reconciles[id].current.value;
        s.(sbc := Write(s.sbc, MergePatch(s.sbc.stored, base, WithError(base, message, generation))),
           reconciles := s.reconciles - {id}, failing := true)
    case PatchChild(id) =>
      if !CanPatchChild(flavour, s, id) then s
      else
        var child := s.reconciles[id].child.value;
        var base := ChildBase(flavour, s.reconciles[id]).value;
        s.(sbc := Write(s.sbc, MergePatch(s.sbc.stored, base, FromChild(base, child))),
           reconciles := s.reconciles - {id},
           failing := if child.state == Ready then false else s.failing)
    case GiveUp(id) => s.(reconciles := s.reconciles - {id})
  }

  function Run(flavour: Flavour, s: System, events: seq<Event>): System
    decreases |events|
  {
    if events == [] then s else Run(flavour, Next(flavour, s, events[0]), events[1..])
  }

  // ----- Classes of runs ---------------------------------------------------------------------------------

  /** No reconcile starts while another is under way. */
  predicate StartsAlone(s: System, e: Event) {
    e.Start? ==> s.reconciles == map[]
  }

  /** The object is read only when the cache has caught up with the API server. */
  predicate ReadsFresh(s: System, e: Event) {
    e.Start? || e.GetCurrent? ==> s.sbc.stream == []
  }

  ghost predicate InClass(flavour: Flavour, s: System, events: seq<Event>, interleaved: bool, lagging: bool)
    decreases |events|
  {
    events != [] ==>
      && (interleaved || StartsAlone(s, events[0]))
      && (lagging || ReadsFresh(s, events[0]))
      && InClass(flavour, Next(flavour, s, events[0]), events[1..], interleaved, lagging)
  }

  /** A patch is computed from what the API server still stores. */
  predicate BaseCurrent(flavour: Flavour, s: System, e: Event) {
    && (e.PatchError? && CanPatchError(s, e.reconcile) ==> s.reconciles[e.reconcile].current.value == s.sbc.stored)
    && (e.PatchChild? && CanPatchChild(flavour, s, e.reconcile) ==>
          ChildBase(flavour, s.reconciles[e.reconcile]).value == s.sbc.stored)
  }

  ghost predicate AlwaysCurrent(flavour: Flavour, s: System, events: seq<Event>)
    decreases |events|
  {
    events != [] ==>
      BaseCurrent(flavour, s, events[0]) && AlwaysCurrent(flavour, Next(flavour, s, events[0]), events[1..])
  }

  // ----- The invariants ----------------------------------------------------------------------------------

  /** Condition types are distinct, Ready excludes a failed image validation, which implies Error. */
  ghost predicate Sound(sbc: Status) {
    && Distinct(sbc.conditions)
    && (sbc.state == Ready ==> !Has(sbc.conditions, IMAGE_VALIDATION))
    && (Has(sbc.conditions, IMAGE_VALIDATION) ==> sbc.state == Error)
  }

  /** Conditions as the boot server writes them. */
  ghost predicate Served(conditions: seq<Condition>) {
    Distinct(conditions) && !Has(conditions, IMAGE_VALIDATION)
  }

  ghost predicate Init(s: System) {
    && Sound(s.sbc.stored) && s.sbc.cached == s.sbc.stored && s.sbc.stream == []
    && Served(s.child.stored.conditions) && s.child.cached == s.child.stored && s.child.stream == []
    && s.reconciles == map[] && s.requests == map[]
    && s.failing == Has(s.sbc.stored.conditions, IMAGE_VALIDATION)
  }

  /** Every version of the child, however old, is as the boot server writes it. */
  ghost predicate ChildServed(r: Replica) {
    && Served(r.stored.conditions) && Served(r.cached.conditions)
    && forall i :: 0 <= i < |r.stream| ==> Served(r.stream[i].conditions)
  }

  ghost predicate Inv(s: System) {
    && Sound(s.sbc.stored) && ChildServed(s.child)
    && (forall id :: id in s.requests ==> Served(s.requests[id]))
    && (forall id :: id in s.reconciles && s.reconciles[id].child.Some? ==>
        Served(s.reconciles[id].child.value.conditions))
    && s.failing == Has(s.sbc.stored.conditions, IMAGE_VALIDATION)
  }

  /** At most one reconcile is under way, and what it has read is still there. */
  ghost predicate Undisturbed(s: System) {
    && |s.reconciles| <= 1
    && (s.sbc.stream == [] ==> s.sbc.cached == s.sbc.stored)
    && forall id :: id in s.reconciles ==>
         && s.reconciles[id].started == s.sbc.stored
         && (s.reconciles[id].current.Some? ==> s.reconciles[id].current.value == s.sbc.stored)
  }
}
