/**
 The idle states that convergence speaks of can be reached: left alone, with no more writes and no
 faults, the protocol can always run to idle, for IPXE exactly if every verdict is Ready.
 */
module BootConfigSettling {
  import opened BootConfigController
  import opened BootConfigConvergence

  predicate Quiet(a: Action) {
    match a
    case WriteConfig(_, _) => false
    case WriteSecret(_, _) => false
    case HandleSecret(_, listFails) => !listFails
    case ReadSecret(_, getFails) => !getFails
    case PatchStatus(_, reply) => reply == Accepted
    case _ => true
  }

  ghost predicate AllQuiet(actions: seq<Action>) {
    forall i :: 0 <= i < |actions| ==> Quiet(actions[i])
  }

  /** The same configs up to the statuses the reconcilers write. */
  ghost predicate SameSpecs(c: map<Key, Config>, d: map<Key, Config>) {
    c.Keys == d.Keys && forall key :: key in c ==> c[key].(state := Unset) == d[key].(state := Unset)
  }

  ghost predicate SameShape(s: System, t: System) {
    s.secrets == t.secrets && SameSpecs(s.configs, t.configs)
  }

  /** Every secret that is referred to is there, with its ignition data. */
  ghost predicate AllReady(s: System) {
    forall key :: key in s.configs && !s.configs[key].deleting && s.configs[key].ignitionSecretRef.Some? ==>
      var secret := Key(key.namespace, s.configs[key].ignitionSecretRef.value);
      secret in s.secrets && "ignition" in s.secrets[secret].data
  }

  lemma PatchKeepsSpecs(flavour: Flavour, s: System, key: Key, base: Config, state: State, reply: Reply)
    ensures SameSpecs(s.configs, Patch(flavour, s.configs, s.configStream, key, base, state, reply).configs)
  {
  }

  lemma DeliveriesKeep(flavour: Flavour, s: System, a: Action)
    requires a.DeliverConfig? || a.DeliverSecret?
    ensures Next(flavour, s, a).configs == s.configs && Next(flavour, s, a).secrets == s.secrets
  {
  }

  lemma HandleConfigKeeps(flavour: Flavour, s: System, a: Action)
    requires a.HandleConfig?
    ensures Next(flavour, s, a).configs == s.configs && Next(flavour, s, a).secrets == s.secrets
  {
  }

  lemma HandleSecretKeeps(flavour: Flavour, s: System, a: Action)
    requires a.HandleSecret?
    ensures Next(flavour, s, a).configs == s.configs && Next(flavour, s, a).secrets == s.secrets
  {
  }

  lemma DequeueKeeps(flavour: Flavour, s: System, a: Action)
    requires a.Dequeue?
    ensures Next(flavour, s, a).configs == s.configs && Next(flavour, s, a).secrets == s.secrets
  {
  }

  lemma ReadsKeep(flavour: Flavour, s: System, a: Action)
    requires a.ReadConfig? || a.ReadSecret?
    ensures Next(flavour, s, a).configs == s.configs && Next(flavour, s, a).secrets == s.secrets
  {
  }

  lemma PatchKeeps(flavour: Flavour, s: System, a: Action)
    requires a.PatchStatus?
    ensures SameShape(s, Next(flavour, s, a))
  {
    if a.key in s.inFlight && s.inFlight[a.key].Judged? {
      PatchKeepsSpecs(flavour, s, a.key, s.inFlight[a.key].config, s.inFlight[a.key].verdict, a.reply);
    }
  }

  lemma NextShape(flavour: Flavour, s: System, a: Action)
    requires Quiet(a)
    ensures SameShape(s, Next(flavour, s, a))
  {
    match a
    case Dequeue(_) => DequeueKeeps(flavour, s, a);
    case ReadConfig(_) => ReadsKeep(flavour, s, a);
    case ReadSecret(_, _) => ReadsKeep(flavour, s, a);
    case PatchStatus(_, _) => PatchKeeps(flavour, s, a);
    case HandleConfig(_) => HandleConfigKeeps(flavour, s, a);
    case HandleSecret(_, _) => HandleSecretKeeps(flavour, s, a);
    case _ => DeliveriesKeep(flavour, s, a);
  }

  lemma {:induction false} RunShape(flavour: Flavour, s: System, actions: seq<Action>)
    requires AllQuiet(actions) && CacheFollows(s)
    ensures SameShape(s, Run(flavour, s, actions)) && CacheFollows(Run(flavour, s, actions))
    decreases |actions|
  {
    if actions != [] {
      NextShape(flavour, s, actions[0]);
      NextFollows(flavour, s, actions[0]);
      RunShape(flavour, Next(flavour, s, actions[0]), actions[1..]);
    }
  }

  lemma RunOne(flavour: Flavour, s: System, a: Action)
    ensures Run(flavour, s, [a]) == Next(flavour, s, a)
  {
    assert [a][1..] == [];
  }

  lemma ReadConfigAdvances(flavour: Flavour, s: System, key: Key)
    ensures var t := Next(flavour, s, ReadConfig(key));
      t.inFlight - {key} == s.inFlight - {key} && (key in t.inFlight ==> !t.inFlight[key].Started?)
  {
  }

  lemma ReadSecretAdvances(flavour: Flavour, s: System, key: Key)
    requires key in s.inFlight ==> !s.inFlight[key].Started?
    ensures var t := Next(flavour, s, ReadSecret(key, false));
      t.inFlight - {key} == s.inFlight - {key} && (key in t.inFlight ==> t.inFlight[key].Judged?)
  {
  }

  lemma FinishOne(flavour: Flavour, s: System, key: Key)
    ensures Run(flavour, s, [ReadConfig(key)] + [ReadSecret(key, false), PatchStatus(key, Accepted)]).inFlight
         == s.inFlight - {key}
  {
    RunAppend(flavour, s, [ReadConfig(key)], [ReadSecret(key, false), PatchStatus(key, Accepted)]);
    RunOne(flavour, s, ReadConfig(key));
    ReadConfigAdvances(flavour, s, key);
    var s1 := Next(flavour, s, ReadConfig(key));
    RunTwo(flavour, s1, ReadSecret(key, false), PatchStatus(key, Accepted));
    ReadSecretAdvances(flavour, s1, key);
    var s2 := Next(flavour, s1, ReadSecret(key, false));
    assert Next(flavour, s2, PatchStatus(key, Accepted)).inFlight == s2.inFlight - {key};
  }

  lemma {:induction false} FinishAll(flavour: Flavour, s: System) returns (actions: seq<Action>)
    ensures AllQuiet(actions) && Run(flavour, s, actions).inFlight == map[]
    decreases |s.inFlight|
  {
    if s.inFlight == map[] {
      actions := [];
    } else {
      var key :| key in s.inFlight;
      var finish := [ReadConfig(key)] + [ReadSecret(key, false), PatchStatus(key, Accepted)];
      FinishOne(flavour, s, key);
      var rest := FinishAll(flavour, Run(flavour, s, finish));
      actions := finish + rest;
      RunAppend(flavour, s, finish, rest);
    }
  }

  lemma {:induction false} DeliverAll(flavour: Flavour, s: System) returns (actions: seq<Action>)
    requires s.inFlight == map[]
    ensures AllQuiet(actions)
    ensures var t := Run(flavour, s, actions); t.configStream == [] && t.secretStream == [] && t.inFlight == map[]
    decreases |s.configStream| + |s.secretStream|
  {
    if s.configStream == [] && s.secretStream == [] {
      actions := [];
    } else {
      var a := if s.configStream != [] then DeliverConfig else DeliverSecret;
      var rest := DeliverAll(flavour, Next(flavour, s, a));
      actions := [a] + rest;
      RunAppend(flavour, s, [a], rest);
      RunOne(flavour, s, a);
    }
  }

  ghost predicate Drained(s: System) {
    s.configStream == [] && s.secretStream == [] && s.inFlight == map[]
  }

  function Handler(notice: Notice): Action {
    if notice.ConfigNotice? then HandleConfig(notice.key) else HandleSecret(notice.key, false)
  }

  lemma HandleOne(flavour: Flavour, s: System, notice: Notice)
    requires Drained(s) && notice in s.notices
    ensures var t := Next(flavour, s, Handler(notice)); Drained(t) && t.notices == s.notices - multiset{notice}
  {
  }

  lemma {:induction false} HandleAll(flavour: Flavour, s: System) returns (actions: seq<Action>)
    requires Drained(s)
    ensures AllQuiet(actions) && Drained(Run(flavour, s, actions)) && Run(flavour, s, actions).notices == multiset{}
    decreases |s.notices|
  {
    if s.notices == multiset{} {
      actions := [];
    } else {
      var notice :| notice in s.notices;
      var a := Handler(notice);
      HandleOne(flavour, s, notice);
      var rest := HandleAll(flavour, Next(flavour, s, a));
      actions := [a] + rest;
      RunAppend(flavour, s, [a], rest);
      RunOne(flavour, s, a);
    }
  }

  /** Nothing is pending but queued keys, and the cache is up to date. */
  ghost predicate Calm(s: System) {
    Drained(s) && s.notices == multiset{} && s.cachedConfigs == s.configs && s.cachedSecrets == s.secrets
  }

  /** Once the status of a config is right, a reconcile of its key changes nothing more. */
  lemma ReconcileRight(flavour: Flavour, s: System, key: Key)
    requires Calm(s) && key in s.queue && (flavour == IPXE ==> AllReady(s))
    requires key !in s.configs || s.configs[key].deleting ||
        s.configs[key].state == Verdict(s.secrets, key, s.configs[key])
    ensures Run(flavour, s, Reconcile(key, false, Accepted)) == s.(queue := s.queue - {key})
  {
    ReconcileRuns(flavour, s, key, false, Accepted);
  }

  /** A wrong status is corrected, announced, and the key queued once more. */
  lemma ReconcileWrong(flavour: Flavour, s: System, key: Key)
    requires Calm(s) && key in s.queue && (flavour == IPXE ==> AllReady(s))
    requires key in s.configs && !s.configs[key].deleting &&
        s.configs[key].state != Verdict(s.secrets, key, s.configs[key])
    ensures var now := s.configs[key].(state := Verdict(s.secrets, key, s.configs[key]));
      var t := s.(configs := s.configs[key := now], cachedConfigs := s.configs[key := now]);
      Run(flavour, s, Reconcile(key, false, Accepted) + [DeliverConfig, HandleConfig(key)]) == t
  {
    ReconcileRuns(flavour, s, key, false, Accepted);
    RunAppend(flavour, s, Reconcile(key, false, Accepted), [DeliverConfig, HandleConfig(key)]);
    var s1 := Run(flavour, s, Reconcile(key, false, Accepted));
    RunTwo(flavour, s1, DeliverConfig, HandleConfig(key));
    assert multiset{ConfigNotice(key)} - multiset{ConfigNotice(key)} == multiset{};
    assert s.queue - {key} + {key} == s.queue;
  }

  ghost predicate CanWorkOff(flavour: Flavour, s: System) {
    Calm(s) && (flavour == IPXE ==> AllReady(s))
  }

  lemma WorkOffOne(flavour: Flavour, s: System, key: Key) returns (actions: seq<Action>)
    requires CanWorkOff(flavour, s) && key in s.queue
    ensures var t := Run(flavour, s, actions);
      AllQuiet(actions) && CanWorkOff(flavour, t) && t.queue == s.queue - {key}
  {
    actions := Reconcile(key, false, Accepted);
    if key in s.configs && !s.configs[key].deleting && s.configs[key].state != Verdict(s.secrets, key, s.configs[key]) {
      var first := Reconcile(key, false, Accepted) + [DeliverConfig, HandleConfig(key)];
      ReconcileWrong(flavour, s, key);
      ReconcileRight(flavour, Run(flavour, s, first), key);
      RunAppend(flavour, s, first, Reconcile(key, false, Accepted));
      actions := first + Reconcile(key, false, Accepted);
    } else {
      ReconcileRight(flavour, s, key);
    }
  }

  lemma {:induction false} WorkOffAll(flavour: Flavour, s: System) returns (actions: seq<Action>)
    requires CanWorkOff(flavour, s)
    ensures AllQuiet(actions) && Idle(Run(flavour, s, actions))
    decreases |s.queue|
  {
    if s.queue == {} {
      actions := [];
    } else {
      var key :| key in s.queue;
      var first := WorkOffOne(flavour, s, key);
      var rest := WorkOffAll(flavour, Run(flavour, s, first));
      actions := first + rest;
      RunAppend(flavour, s, first, rest);
    }
  }

  /** From every state, quiet actions lead to idle, for HTTP always and for IPXE if all verdicts are Ready. */
  lemma CanSettle(flavour: Flavour, s: System) returns (actions: seq<Action>)
    requires CacheFollows(s) && (flavour == IPXE ==> AllReady(s))
    ensures AllQuiet(actions) && Idle(Run(flavour, s, actions))
  {
    var finish := FinishAll(flavour, s);
    var s1 := Run(flavour, s, finish);
    RunShape(flavour, s, finish);
    var deliver := DeliverAll(flavour, s1);
    var s2 := Run(flavour, s1, deliver);
    RunShape(flavour, s1, deliver);
    var handle := HandleAll(flavour, s2);
    var s3 := Run(flavour, s2, handle);
    RunShape(flavour, s2, handle);
    var work := WorkOffAll(flavour, s3);
    actions := finish + (deliver + (handle + work));
    RunAppend(flavour, s, finish, deliver + (handle + work));
    RunAppend(flavour, s1, deliver, handle + work);
    RunAppend(flavour, s2, handle, work);
  }

  /** After any tolerated run from a start of the operator, quiet actions can reach an idle state
      exactly if the flavour is HTTP or every config now has the verdict Ready. */
  lemma SettlesIff(flavour: Flavour, s: System, past: seq<Action>)
    requires Init(s) && ToleratesAll(past, flavour == IPXE, false)
    ensures var now := Run(flavour, s, past);
      (exists actions :: AllQuiet(actions) && Idle(Run(flavour, now, actions))) <==> (flavour == IPXE ==> AllReady(now))
  {
    var now := Run(flavour, s, past);
    InitInv(flavour, s);
    RunKeeps(flavour, s, past);
    if flavour == IPXE ==> AllReady(now) {
      var actions := CanSettle(flavour, now);
    }
    if actions :| AllQuiet(actions) && Idle(Run(flavour, now, actions)) {
      RunAppend(flavour, s, past, actions);
      assert ToleratesAll(past + actions, flavour == IPXE, false);
      Converges(flavour, s, past + actions);
      RunShape(flavour, now, actions);
    }
  }
}
