/** The condition loops and patches as code, proved against StatusMachine. */
module StatusServer {
  import opened StatusMachine

  /** `updateCondition`: overwrite in place, or append. */
  method UpdateCondition(conditions: seq<Condition>, newCondition: Condition) returns (r: seq<Condition>)
    ensures r == Set(conditions, newCondition)
  {
    r := conditions;
    for i := 0 to |conditions|
      invariant Set(conditions, newCondition) == conditions[..i] + Set(conditions[i..], newCondition)
    {
      if conditions[i].kind == newCondition.kind {
        assert conditions[..i] + ([newCondition] + conditions[i + 1..]) == conditions[i := newCondition];
        return conditions[i := newCondition];
      }
      assert conditions[i..] == [conditions[i]] + conditions[i + 1..];
      assert conditions[..i] + ([conditions[i]] + Set(conditions[i + 1..], newCondition))
          == conditions[..i + 1] + Set(conditions[i + 1..], newCondition);
    }
    r := r + [newCondition];
  }

  /** `RemoveStatusCondition` */
  method RemoveCondition(conditions: seq<Condition>, kind: string) returns (r: seq<Condition>)
    ensures r == Remove(conditions, kind)
  {
    r := [];
    assert conditions[0..] == conditions;
    for i := 0 to |conditions|
      invariant Remove(conditions, kind) == r + Remove(conditions[i..], kind)
    {
      assert conditions[i..][0] == conditions[i] && conditions[i..][1..] == conditions[i + 1..];
      if conditions[i].kind != kind {
        assert r + ([conditions[i]] + Remove(conditions[i + 1..], kind))
            == r + [conditions[i]] + Remove(conditions[i + 1..], kind);
        r := r + [conditions[i]];
      }
    }
  }

  /** The object in the API server. */
  class ServerBootConfiguration {
    var status: Status

    constructor (status: Status)
      ensures this.status == status
    {
      this.status := status;
    }

    /** `PatchServerBootConfigWithError` after its Get, which returned `cur`. */
    method PatchWithError(cur: Status, message: string, generation: int)
      modifies this
      ensures status == MergePatch(old(status), cur, WithError(cur, message, generation))
      ensures cur == old(status) ==> status.state == Error
    {
      var base := cur;
      var conditions := UpdateCondition(base.conditions, ValidationFailed(message, generation));
      status := MergePatch(status, base, Status(Error, conditions));
    }

    /** `patchConfigStateFromHTTPState` after its Get, which returned `base`, and
        `patchConfigStateFromIPXEState` with `base` as read at the start of the reconcile. */
    method PatchFromChild(base: Status, child: Status)
      modifies this
      ensures status == MergePatch(old(status), base, FromChild(base, child))
      ensures base == old(status) ==>
        status.state == if child.state == Ready || child.state == Error then child.state else old(status).state
    {
      var state, conditions := base.state, base.conditions;
      if child.state == Ready {
        state := Ready;
        conditions := RemoveCondition(conditions, IMAGE_VALIDATION);
      } else if child.state == Error {
        state := Error;
      }
      ghost var start := conditions;
      assert child.conditions[0..] == child.conditions;
      for i := 0 to |child.conditions|
        invariant status == old(status)
        invariant SetAll(start, child.conditions) == SetAll(conditions, child.conditions[i..])
      {
        assert child.conditions[i..][0] == child.conditions[i] &&
            child.conditions[i..][1..] == child.conditions[i + 1..];
        conditions := UpdateCondition(conditions, child.conditions[i]);
      }
      assert child.conditions[|child.conditions|..] == [];
      status := MergePatch(status, base, Status(state, conditions));
    }
  }
}
