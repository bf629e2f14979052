/**
 `bootctl move` (cmdutils/move.go): plan which boot CRs and secrets are missing in the target
 cluster, create them, and on any error delete what was created.

 Both clusters sit behind one `World`, together with the script of what the network does to the
 API calls still to come.  A rejected call has no effect.  A call whose reply is lost took effect
 on the server although the client sees an error.
 */
module Move {
  import opened Wrappers

  // ----- Objects and the API server ---------------------------------------------------------

  datatype Kind = HTTPBootConfig | IPXEBootConfig | Secret | ServerBootConfiguration

  datatype Key = Key(kind: Kind, namespace: string, name: string)

  datatype OwnerReference = OwnerReference(name: string, uid: nat, controller: bool)

  /** `content` is everything an update by a user can change and the move does not look at, by field:
      labels, annotations, the rest of the specification, secret data.  `group` is what the decoded Go
      object carries. */
  datatype Object = Object(
    key: Key,
    group: string,
    uid: nat,
    resourceVersion: nat,
    generation: nat,
    creationTimestamp: nat,
    managedFields: string,
    ownerReferences: seq<OwnerReference>,
    ignitionSecretRef: Option<string>,
    content: map<string, string>,
    status: map<string, string>)

  const BOOT_GROUP := "boot.ironcore.dev"

  datatype Fault = NoFault | Rejected | LostReply

  datatype World = World(source: map<Key, Object>, target: map<Key, Object>, faults: seq<Fault>, serial: nat)

  /** Objects are stored under their own key, and secrets are not of the boot API group. */
  ghost predicate Consistent(store: map<Key, Object>) {
    forall key :: key in store ==> store[key].key == key && (key.kind == Secret ==> store[key].group != BOOT_GROUP)
  }

  datatype Lookup = Found(stored: Object) | NotFound | Failed

  datatype Step<+T> = Step(result: Result<T>, world: World)

  function FaultAt(faults: seq<Fault>, i: nat): Fault {
    if i < |faults| then faults[i] else NoFault
  }

  function Tick(w: World): World {
    w.(faults := if w.faults == [] then [] else w.faults[1..])
  }

  function Get(store: map<Key, Object>, faults: seq<Fault>, key: Key): Lookup {
    if FaultAt(faults, 0) != NoFault then Failed
    else if key in store then Found(store[key])
    else NotFound
  }

  /** What the server stores for a create request: it assigns the metadata it owns, and drops the
      status of the boot CRs, whose status is a subresource. */
  function Persisted(o: Object, serial: nat): Object {
    o.(uid := serial, resourceVersion := serial, generation := 1, creationTimestamp := serial,
       managedFields := "server", status := if o.key.kind == Secret then o.status else map[])
  }

  predicate Accepts(w: World, o: Object) {
    o.key !in w.target && o.resourceVersion == 0
  }

  function Create(w: World, o: Object): Step<()> {
    var fault := FaultAt(w.faults, 0);
    var world := if fault != Rejected && Accepts(w, o)
                 then w.(target := w.target[o.key := Persisted(o, w.serial + 1)], serial := w.serial + 1)
                 else w;
    Step(if fault == NoFault && Accepts(w, o) then Ok(()) else Err, Tick(world))
  }

  function Delete(w: World, key: Key): Step<()> {
    var fault := FaultAt(w.faults, 0);
    Step(if fault == NoFault && key in w.target then Ok(()) else Err,
         Tick(if fault != Rejected then w.(target := w.target - {key}) else w))
  }

  // ----- Planning -----------------------------------------------------------------------------

  function Cleared(o: Object): Object {
    o.(uid := 0, resourceVersion := 0, generation := 0, creationTimestamp := 0, managedFields := "", group := "")
  }

  /** A Get decodes the stored object over a copy of the source object: fields it lacks keep the value of
      the copy. */
  function Decoded(copy: Object, stored: Object): Object {
    stored.(ownerReferences := if stored.ownerReferences == [] then copy.ownerReferences else stored.ownerReferences,
            ignitionSecretRef := if stored.ignitionSecretRef.None? then copy.ignitionSecretRef
                else stored.ignitionSecretRef,
            content := copy.content + stored.content,
            status := copy.status + stored.status)
  }

  /** The comparison of a source CR with the stored one. */
  predicate PassesForEqual(cr: Object, stored: Object) {
    Cleared(cr) == Cleared(Decoded(cr, stored))
  }

  /** The secret a CR refers to, "" for none. */
  function SecretName(cr: Object): string {
    match cr.ignitionSecretRef case Some(name) => name case None => ""
  }

  function SecretNames(crs: seq<Object>): map<nat, string> {
    if crs == [] then map[]
    else
      var cr := crs[|crs| - 1];
      var names := SecretNames(crs[..|crs| - 1]);
      if cr.ignitionSecretRef.Some? then names[cr.uid := cr.ignitionSecretRef.value] else names
  }

  function NameFor(names: map<nat, string>, uid: nat): string {
    if uid in names then names[uid] else ""
  }

  function SecretKey(namespace: string, name: string): Key {
    Key(Secret, namespace, name)
  }

  /** `getSecret`: the source secret when the target lacks it, nothing when the target has an equal one. */
  function SecretToMove(w: World, name: string, namespace: string): Step<Option<Object>> {
    if name == "" then Step(Ok(None), w)
    else
      var key := SecretKey(namespace, name);
      match Get(w.source, w.faults, key)
      case NotFound => Step(Err, Tick(w))
      case Failed => Step(Err, Tick(w))
      case Found(secret) =>
        var w1 := Tick(w);
        match Get(w1.target, w1.faults, key)
        case NotFound => Step(Ok(Some(secret)), Tick(w1))
        case Failed => Step(Err, Tick(w1))
        case Found(existing) =>
          Step(if Cleared(secret) == Cleared(existing) then Ok(None) else Err, Tick(w1))
  }

  function Optional<T>(o: Option<T>): seq<T> {
    if o.Some? then [o.value] else []
  }

  /** What one CR contributes: itself and possibly its secret, if the target lacks it. */
  function PlanOne(w: World, cr: Object, secretName: string): Step<seq<Object>> {
    var w1 := Tick(w);
    match Get(w.target, w.faults, cr.key)
    case Failed => Step(Err, w1)
    case Found(existing) => Step(if PassesForEqual(cr, existing) then Ok([]) else Err, w1)
    case NotFound =>
      var s := SecretToMove(w1, secretName, cr.key.namespace);
      Step(if s.result.Ok? then Ok([cr] + Optional(s.result.value)) else Err, s.world)
  }

  /** `getObjsToBeMoved` */
  function Plan(w: World, crs: seq<Object>, names: map<nat, string>): Step<seq<Object>>
    decreases |crs|
  {
    if crs == [] then Step(Ok([]), w)
    else
      var first := PlanOne(w, crs[0], NameFor(names, crs[0].uid));
      if first.result.Err? then first
      else
        var rest := Plan(first.world, crs[1..], names);
        if rest.result.Ok? then rest.(result := Ok(first.result.value + rest.result.value)) else rest
  }

  // ----- Executing and rolling back -------------------------------------------------------------

  predicate Owned(o: Object) {
    o.group == BOOT_GROUP && |o.ownerReferences| == 1
  }

  function OwnerKey(o: Object): Key {
    Key(ServerBootConfiguration, o.key.namespace, o.key.name)
  }

  /** The owner reference rewriting of `moveObjs`. */
  function Prepare(w: World, o: Object, requireOwners: bool): Step<Object> {
    if !Owned(o) then Step(Ok(o.(resourceVersion := 0)), w)
    else
      match Get(w.target, w.faults, OwnerKey(o))
      case Found(owner) =>
        Step(Ok(o.(ownerReferences := [OwnerReference(owner.key.name, owner.uid, true)], resourceVersion := 0)),
            Tick(w))
      case NotFound =>
        Step(if requireOwners then Err else Ok(o.(ownerReferences := [], resourceVersion := 0)), Tick(w))
      case Failed => Step(Err, Tick(w))
  }

  /** `stray` holds the key the failing create stored although its reply was lost. */
  datatype Executed = Executed(ok: bool, moved: seq<Object>, stray: set<Key>, world: World)

  /** `moveObjs`. */
  function Execute(w: World, objs: seq<Object>, requireOwners: bool): Executed
    decreases |objs|
  {
    if objs == [] then Executed(true, [], {}, w)
    else
      var p := Prepare(w, objs[0], requireOwners);
      match p.result
      case Err => Executed(false, [], {}, p.world)
      case Ok(o) =>
        var c := Create(p.world, o);
        if c.result.Ok? then
          var rest := Execute(c.world, objs[1..], requireOwners);
          rest.(moved := [o] + rest.moved)
        else
          Executed(false, [], c.world.target.Keys - p.world.target.Keys, c.world)
  }

  function Cleanup(w: World, objs: seq<Object>): World
    decreases |objs|
  {
    if objs == [] then w else Cleanup(Delete(w, objs[0].key).world, objs[1..])
  }

  datatype Outcome = Outcome(ok: bool, world: World)

  /** `Move` once the source CRs have been listed. */
  function Moved(w: World, crs: seq<Object>, requireOwners: bool, dryRun: bool): Outcome {
    var plan := Plan(w, crs, SecretNames(crs));
    match plan.result
    case Err => Outcome(false, plan.world)
    case Ok(objs) =>
      if dryRun then Outcome(true, plan.world)
      else
        var e := Execute(plan.world, objs, requireOwners);
        if e.ok then Outcome(true, e.world) else Outcome(false, Cleanup(e.world, e.moved))
  }
}
