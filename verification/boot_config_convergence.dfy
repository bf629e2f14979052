/** Convergence of the boot config reconcilers, over every run of the protocol. */
module BootConfigConvergence {
  import opened Wrappers
  import opened BootConfigController

  // ----- Anything stale is queued -------------------------------------------------------------------

  function ApplyAll<T>(m: map<Key, T>, changes: seq<Change<T>>): map<Key, T>
    decreases |changes|
  {
    if changes == [] then m else ApplyAll(Put(m, changes[0].key, changes[0].now), changes[1..])
  }

  ghost predicate InStream<T>(changes: seq<Change<T>>, key: Key) {
    exists i :: 0 <= i < |changes| && changes[i].key == key
  }

  /** The reconcile of `key` that is under way will still see, or already holds, the current verdict. */
  ghost predicate OnTrack(flavour: Flavour, s: System, key: Key) {
    key in s.inFlight && key in s.cachedConfigs &&
    match s.inFlight[key]
    case Started => true
    case Read(config) => config == s.cachedConfigs[key]
    case Judged(config, verdict) =>
      || (verdict == Error && flavour == IPXE)
      || (config == s.cachedConfigs[key] && verdict == Verdict(s.cachedSecrets, key, config))
  }

  ghost predicate Announced(s: System, key: Key) {
    || key in s.queue || ConfigNotice(key) in s.notices || InStream(s.configStream, key)
    || (key in s.cachedConfigs && SecretKeyOf(key, s.cachedConfigs[key]).Some?
          && SecretNotice(SecretKeyOf(key, s.cachedConfigs[key]).value) in s.notices)
  }

  /** Nothing is left to do for `key`: its status shows the verdict, which for IPXE, where an error is
      retried for ever, must moreover be Ready. */
  ghost predicate Settled(flavour: Flavour, s: System, key: Key)
    requires key in s.cachedConfigs
  {
    var config := s.cachedConfigs[key];
    var verdict := Verdict(s.cachedSecrets, key, config);
    config.deleting || (config.state == verdict && (flavour == IPXE ==> verdict == Ready))
  }

  ghost predicate Accounted(flavour: Flavour, s: System, key: Key) {
    key in s.cachedConfigs ==> Settled(flavour, s, key) || Announced(s, key) || OnTrack(flavour, s, key)
  }

  ghost predicate StaleIsQueued(flavour: Flavour, s: System) {
    forall key :: Accounted(flavour, s, key)
  }

  ghost predicate CacheFollows(s: System) {
    ApplyAll(s.cachedConfigs, s.configStream) == s.configs && ApplyAll(s.cachedSecrets, s.secretStream) == s.secrets
  }

  ghost predicate Inv(flavour: Flavour, s: System) {
    CacheFollows(s) && StaleIsQueued(flavour, s)
  }

  lemma {:induction false} ApplyAllAppend<T>(m: map<Key, T>, changes: seq<Change<T>>, change: Change<T>)
    ensures ApplyAll(m, changes + [change]) == Put(ApplyAll(m, changes), change.key, change.now)
    decreases |changes|
  {
    if changes != [] {
      ApplyAllAppend(Put(m, changes[0].key, changes[0].now), changes[1..], change);
      assert (changes + [change])[1..] == changes[1..] + [change];
    }
  }

  lemma {:induction false} ApplyAllFrame<T>(m: map<Key, T>, changes: seq<Change<T>>, key: Key)
    requires !InStream(changes, key)
    ensures key in ApplyAll(m, changes) <==> key in m
    ensures key in m ==> ApplyAll(m, changes)[key] == m[key]
    decreases |changes|
  {
    if changes != [] {
      assert changes[0].key != key;
      assert forall i :: 0 <= i < |changes[1..]| ==> changes[1..][i] == changes[i + 1];
      ApplyAllFrame(Put(m, changes[0].key, changes[0].now), changes[1..], key);
    }
  }

  /** Which faults a run may contain. */
  predicate Tolerates(a: Action, getMayFail: bool, listMayFail: bool) {
    (a.ReadSecret? ==> getMayFail || !a.getFails) && (a.HandleSecret? ==> listMayFail || !a.listFails)
  }

  lemma PatchFollows(flavour: Flavour, s: System, key: Key, reply: Reply)
    requires CacheFollows(s) && key in s.inFlight && s.inFlight[key].Judged?
    ensures CacheFollows(Next(flavour, s, PatchStatus(key, reply)))
  {
    if key in s.configs {
      var now := s.configs[key].(state := s.inFlight[key].verdict);
      ApplyAllAppend(s.cachedConfigs, s.configStream, Change(key, Some(now)));
    }
  }

  lemma NextFollows(flavour: Flavour, s: System, a: Action)
    requires CacheFollows(s)
    ensures CacheFollows(Next(flavour, s, a))
  {
    match a
    case WriteConfig(key, config) => ApplyAllAppend(s.cachedConfigs, s.configStream, Change(key, config));
    case WriteSecret(key, secret) => ApplyAllAppend(s.cachedSecrets, s.secretStream, Change(key, secret));
    case PatchStatus(key, reply) =>
      if key in s.inFlight && s.inFlight[key].Judged? { PatchFollows(flavour, s, key, reply); }
    case _ =>
  }

  lemma InStreamAppend<T>(changes: seq<Change<T>>, change: Change<T>, key: Key)
    ensures InStream(changes + [change], key) <==> InStream(changes, key) || change.key == key
  {
    var longer := changes + [change];
    assert longer[|changes|] == change;
    assert forall i :: 0 <= i < |changes| ==> longer[i] == changes[i];
  }

  lemma InStreamTail<T>(changes: seq<Change<T>>, key: Key)
    requires changes != []
    ensures InStream(changes, key) ==> changes[0].key == key || InStream(changes[1..], key)
  {
    if i :| 0 < i < |changes| && changes[i].key == key {
      assert changes[1..][i - 1].key == key;
    }
  }

  /** The patch either reaches the stream, or leaves a cache that already shows the verdict. */
  lemma PatchQueues(flavour: Flavour, s: System, key: Key, reply: Reply)
    requires CacheFollows(s) && Accounted(flavour, s, key) && key in s.cachedConfigs
    requires key in s.inFlight && s.inFlight[key].Judged?
    requires !Settled(flavour, s, key) && !Announced(s, key)
    ensures Announced(Next(flavour, s, PatchStatus(key, reply)), key)
  {
    var Judged(config, verdict) := s.inFlight[key];
    ApplyAllFrame(s.cachedConfigs, s.configStream, key);
    InStreamAppend(s.configStream, Change(key, Some(s.configs[key].(state := verdict))), key);
  }

  lemma WritesAccount(flavour: Flavour, s: System, a: Action, key: Key)
    requires CacheFollows(s) && Accounted(flavour, s, key) && (a.WriteConfig? || a.WriteSecret?)
    ensures Accounted(flavour, Next(flavour, s, a), key)
  {
    if a.WriteConfig? { InStreamAppend(s.configStream, Change(a.key, a.config), key); }
  }

  lemma DeliveriesAccount(flavour: Flavour, s: System, a: Action, key: Key)
    requires CacheFollows(s) && Accounted(flavour, s, key) && (a.DeliverConfig? || a.DeliverSecret?)
    ensures Accounted(flavour, Next(flavour, s, a), key)
  {
    if a.DeliverConfig? && s.configStream != [] { InStreamTail(s.configStream, key); }
  }

  lemma HandlersAccount(flavour: Flavour, s: System, a: Action, key: Key)
    requires CacheFollows(s) && Accounted(flavour, s, key) && (a.HandleConfig? || (a.HandleSecret? && !a.listFails))
    ensures Accounted(flavour, Next(flavour, s, a), key)
  {
  }

  lemma DequeueAccounts(flavour: Flavour, s: System, a: Action, key: Key)
    requires Accounted(flavour, s, key) && a.Dequeue?
    ensures Accounted(flavour, Next(flavour, s, a), key)
  {
  }

  lemma ReadConfigAccounts(flavour: Flavour, s: System, a: Action, key: Key)
    requires Accounted(flavour, s, key) && a.ReadConfig?
    ensures Accounted(flavour, Next(flavour, s, a), key)
  {
  }

  lemma ReadSecretAccounts(flavour: Flavour, s: System, a: Action, key: Key)
    requires Accounted(flavour, s, key) && a.ReadSecret? && (flavour == IPXE || !a.getFails)
    ensures Accounted(flavour, Next(flavour, s, a), key)
  {
  }

  lemma PatchesAccount(flavour: Flavour, s: System, a: Action, key: Key)
    requires CacheFollows(s) && Accounted(flavour, s, key) && a.PatchStatus?
    ensures Accounted(flavour, Next(flavour, s, a), key)
  {
    if key in s.cachedConfigs && !Settled(flavour, s, key) && !Announced(s, key) {
      if a.key == key && key in s.inFlight && s.inFlight[key].Judged? {
        PatchQueues(flavour, s, key, a.reply);
      }
    } else if a.key in s.configs && a.key in s.inFlight && s.inFlight[a.key].Judged? {
      InStreamAppend(s.configStream, Change(a.key, Some(s.configs[a.key].(state := s.inFlight[a.key].verdict))), key);
    }
  }

  lemma NextKeeps(flavour: Flavour, s: System, a: Action)
    requires Inv(flavour, s) && Tolerates(a, flavour == IPXE, false)
    ensures Inv(flavour, Next(flavour, s, a))
  {
    NextFollows(flavour, s, a);
    forall key ensures Accounted(flavour, Next(flavour, s, a), key) {
      assert Accounted(flavour, s, key);
      match a
      case WriteConfig(_, _) => WritesAccount(flavour, s, a, key);
      case WriteSecret(_, _) => WritesAccount(flavour, s, a, key);
      case DeliverConfig => DeliveriesAccount(flavour, s, a, key);
      case DeliverSecret => DeliveriesAccount(flavour, s, a, key);
      case HandleConfig(_) => HandlersAccount(flavour, s, a, key);
      case HandleSecret(_, _) => HandlersAccount(flavour, s, a, key);
      case PatchStatus(_, _) => PatchesAccount(flavour, s, a, key);
      case Dequeue(_) => DequeueAccounts(flavour, s, a, key);
      case ReadConfig(_) => ReadConfigAccounts(flavour, s, a, key);
      case ReadSecret(_, _) => ReadSecretAccounts(flavour, s, a, key);
    }
  }

  // ----- Over whole runs -----------------------------------------------------------------------------

  ghost predicate ToleratesAll(actions: seq<Action>, getMayFail: bool, listMayFail: bool) {
    forall i :: 0 <= i < |actions| ==> Tolerates(actions[i], getMayFail, listMayFail)
  }

  lemma {:induction false} RunKeeps(flavour: Flavour, s: System, actions: seq<Action>)
    requires Inv(flavour, s) && ToleratesAll(actions, flavour == IPXE, false)
    ensures Inv(flavour, Run(flavour, s, actions))
    decreases |actions|
  {
    if actions != [] {
      NextKeeps(flavour, s, actions[0]);
      RunKeeps(flavour, Next(flavour, s, actions[0]), actions[1..]);
    }
  }

  lemma InitInv(flavour: Flavour, s: System)
    requires Init(s)
    ensures Inv(flavour, s)
  {
  }

  /** A status of the API server that does not fit its secrets: Ready without the ignition data referred to,
      or not Ready although nothing is missing, or neither Ready nor Error. */
  ghost predicate Stale(s: System, key: Key)
    requires key in s.configs
  {
    var Config(ref, deleting, state) := s.configs[key];
    var missing := ref.Some? &&
      (Key(key.namespace, ref.value) !in s.secrets || "ignition" !in s.secrets[Key(key.namespace, ref.value)].data);
    !deleting && state != if missing then Error else Ready
  }

  /** Whatever is stale in the API server is queued or announced, or on track, or the news of it is still on
      its way. */
  ghost predicate StaleOnServerIsQueued(flavour: Flavour, s: System) {
    forall key :: key in s.configs && Stale(s, key) ==>
      || Announced(s, key) || OnTrack(flavour, s, key)
      || (SecretKeyOf(key, s.configs[key]).Some? && InStream(s.secretStream, SecretKeyOf(key, s.configs[key]).value))
  }

  lemma ServerAccounted(flavour: Flavour, s: System)
    requires Inv(flavour, s)
    ensures StaleOnServerIsQueued(flavour, s)
  {
    forall key | key in s.configs && !InStream(s.configStream, key)
      ensures key in s.cachedConfigs && s.cachedConfigs[key] == s.configs[key]
      ensures Accounted(flavour, s, key)
    {
      ApplyAllFrame(s.cachedConfigs, s.configStream, key);
    }
    forall secret | !InStream(s.secretStream, secret)
      ensures secret in s.secrets <==> secret in s.cachedSecrets
      ensures secret in s.secrets ==> s.secrets[secret] == s.cachedSecrets[secret]
    {
      ApplyAllFrame(s.cachedSecrets, s.secretStream, secret);
    }
  }

  /** Every run from a start of the operator keeps anything stale queued, by the cache and by the API
      server, and once nothing is left to do every status is correct; for IPXE it is then even Ready. */
  lemma Converges(flavour: Flavour, s: System, actions: seq<Action>)
    requires Init(s) && ToleratesAll(actions, flavour == IPXE, false)
    ensures StaleIsQueued(flavour, Run(flavour, s, actions))
    ensures StaleOnServerIsQueued(flavour, Run(flavour, s, actions))
    ensures Idle(Run(flavour, s, actions)) ==> Correct(Run(flavour, s, actions))
    ensures Idle(Run(flavour, s, actions)) && flavour == IPXE ==>
      forall key :: key in Run(flavour, s, actions).configs ==>
        Run(flavour, s, actions).configs[key].deleting || Run(flavour, s, actions).configs[key].state == Ready
  {
    InitInv(flavour, s);
    RunKeeps(flavour, s, actions);
    var t := Run(flavour, s, actions);
    ServerAccounted(flavour, t);
    if Idle(t) {
      forall key | key in t.configs ensures Settled(flavour, t, key) {
        assert Accounted(flavour, t, key);
      }
    }
  }

  // ----- Exactly which faults it tolerates -------------------------------------------------------------

  lemma {:induction false} RunAppend(flavour: Flavour, s: System, a: seq<Action>, b: seq<Action>)
    ensures Run(flavour, s, a + b) == Run(flavour, Run(flavour, s, a), b)
    decreases |a|
  {
    if a == [] {
      assert a + b == b;
    } else {
      assert (a + b)[1..] == a[1..] + b;
      RunAppend(flavour, Next(flavour, s, a[0]), a[1..], b);
    }
  }

  lemma RunTwo(flavour: Flavour, s: System, a: Action, b: Action)
    ensures Run(flavour, s, [a, b]) == Next(flavour, Next(flavour, s, a), b)
  {
    assert [a, b][1..] == [b] && [b][1..] == [];
    assert Run(flavour, Next(flavour, s, a), [b]) == Run(flavour, Next(flavour, Next(flavour, s, a), b), []);
  }

  /** One reconcile with nothing in between. */
  function Reconcile(key: Key, getFails: bool, reply: Reply): seq<Action> {
    [Dequeue(key), ReadConfig(key)] + [ReadSecret(key, getFails), PatchStatus(key, reply)]
  }

  /** The state a reconcile writes. */
  function Judgement(s: System, key: Key, config: Config, getFails: bool): State {
    if getFails && config.ignitionSecretRef.Some? then Error else Verdict(s.cachedSecrets, key, config)
  }

  // The steps of one uninterrupted reconcile.

  lemma DequeueThenRead(flavour: Flavour, s: System, key: Key)
    requires key in s.queue && key !in s.inFlight
    ensures Next(flavour, Next(flavour, s, Dequeue(key)), ReadConfig(key)) ==
      if key !in s.cachedConfigs || s.cachedConfigs[key].deleting then s.(queue := s.queue - {key})
      else s.(queue := s.queue - {key}, inFlight := s.inFlight[key := Read(s.cachedConfigs[key])])
  {
    assert s.inFlight[key := Started] - {key} == s.inFlight;
  }

  /** `s` with `key` taken from the queue and its reconcile in this phase. */
  function InPhase(s: System, key: Key, phase: Phase): System {
    s.(queue := s.queue - {key}, inFlight := s.inFlight[key := phase])
  }

  lemma ReadThenJudge(flavour: Flavour, s: System, key: Key, config: Config, getFails: bool)
    ensures Next(flavour, InPhase(s, key, Read(config)), ReadSecret(key, getFails)) ==
      InPhase(s, key, Judged(config, Judgement(s, key, config, getFails)))
  {
    assert forall a: Phase, b: Phase {:trigger s.inFlight[key := a][key := b]} ::
      s.inFlight[key := a][key := b] == s.inFlight[key := b];
  }

  /** `s` once a reconcile of `key` has patched this verdict. */
  function Finished(flavour: Flavour, s: System, key: Key, config: Config, verdict: State, reply: Reply): System {
    var p := Patch(flavour, s.configs, s.configStream, key, config, verdict, reply);
    var again := p.failed || (verdict == Error && flavour == IPXE);
    s.(configs := p.configs, configStream := p.stream, queue := s.queue - {key} + if again then {key} else {})
  }

  lemma JudgeThenPatch(flavour: Flavour, s: System, key: Key, config: Config, verdict: State, reply: Reply)
    requires key !in s.inFlight
    ensures Next(flavour, InPhase(s, key, Judged(config, verdict)), PatchStatus(key, reply)) ==
      Finished(flavour, s, key, config, verdict, reply)
  {
    assert s.inFlight[key := Judged(config, verdict)] - {key} == s.inFlight;
  }

  /** One uninterrupted reconcile of a queued key. */
  lemma ReconcileRuns(flavour: Flavour, s: System, key: Key, getFails: bool, reply: Reply)
    requires key in s.queue && key !in s.inFlight
    ensures Run(flavour, s, Reconcile(key, getFails, reply)) ==
      if key !in s.cachedConfigs || s.cachedConfigs[key].deleting then s.(queue := s.queue - {key})
      else
        var config := s.cachedConfigs[key];
        Finished(flavour, s, key, config, Judgement(s, key, config, getFails), reply)
  {
    RunAppend(flavour, s, [Dequeue(key), ReadConfig(key)], [ReadSecret(key, getFails), PatchStatus(key, reply)]);
    RunTwo(flavour, s, Dequeue(key), ReadConfig(key));
    DequeueThenRead(flavour, s, key);
    var s1 := Next(flavour, Next(flavour, s, Dequeue(key)), ReadConfig(key));
    RunTwo(flavour, s1, ReadSecret(key, getFails), PatchStatus(key, reply));
    if key in s.cachedConfigs && !s.cachedConfigs[key].deleting {
      var config := s.cachedConfigs[key];
      ReadThenJudge(flavour, s, key, config, getFails);
      JudgeThenPatch(flavour, s, key, config, Judgement(s, key, config, getFails), reply);
    } else {
      NotInFlight(flavour, s1, key, getFails, reply);
    }
  }

  lemma NotInFlight(flavour: Flavour, s: System, key: Key, getFails: bool, reply: Reply)
    requires key !in s.inFlight
    ensures Next(flavour, Next(flavour, s, ReadSecret(key, getFails)), PatchStatus(key, reply)) == s
  {
  }

  ghost predicate AlwaysConverges(flavour: Flavour, getMayFail: bool, listMayFail: bool) {
    forall s, actions ::
      Init(s) && ToleratesAll(actions, getMayFail, listMayFail) && Idle(Run(flavour, s, actions)) ==>
        Correct(Run(flavour, s, actions))
  }

  const CONFIG_KEY: Key := Key("default", "server")

  const SECRET_KEY: Key := Key("default", "ignition")

  function OneConfig(state: State): System {
    var configs := map[CONFIG_KEY := Config(Some("ignition"), false, state)];
    var secrets := map[SECRET_KEY := Secret(map[IGNITION_KEY := "{}"])];
    System(configs, secrets, [], [], configs, secrets, multiset{ConfigNotice(CONFIG_KEY)}, {}, map[])
  }

  /** The HTTP reconciler swallows a failed read of the secret, and a wrong status stays. */
  lemma SwallowedErrorStays()
    ensures var s := Run(HTTP, OneConfig(Error), [HandleConfig(CONFIG_KEY)] + Reconcile(CONFIG_KEY, true, Accepted));
      Idle(s) && !Correct(s)
  {
    var s := OneConfig(Error);
    var s1 := Next(HTTP, s, HandleConfig(CONFIG_KEY));
    RunAppend(HTTP, s, [HandleConfig(CONFIG_KEY)], Reconcile(CONFIG_KEY, true, Accepted));
    assert Run(HTTP, s, [HandleConfig(CONFIG_KEY)]) == Run(HTTP, s1, []);
    ReconcileRuns(HTTP, s1, CONFIG_KEY, true, Accepted);
    assert s.cachedConfigs[CONFIG_KEY].state == Error;
  }

  lemma SettleExample(flavour: Flavour)
    ensures Run(flavour, OneConfig(Ready), [HandleConfig(CONFIG_KEY)] + Reconcile(CONFIG_KEY, false, Accepted)) ==
      OneConfig(Ready).(notices := multiset{})
  {
    var s := OneConfig(Ready);
    var s1 := Next(flavour, s, HandleConfig(CONFIG_KEY));
    RunAppend(flavour, s, [HandleConfig(CONFIG_KEY)], Reconcile(CONFIG_KEY, false, Accepted));
    assert Run(flavour, s, [HandleConfig(CONFIG_KEY)]) == Run(flavour, s1, []);
    ReconcileRuns(flavour, s1, CONFIG_KEY, false, Accepted);
  }

  /** A mapping function that cannot list the configs loses the deletion of a secret. */
  function LostDeletion(): seq<Action> {
    [HandleConfig(CONFIG_KEY)] + Reconcile(CONFIG_KEY, false, Accepted)
    + ([WriteSecret(SECRET_KEY, None), DeliverSecret] + [HandleSecret(SECRET_KEY, true)])
  }

  lemma LostDeletionStays(flavour: Flavour)
    ensures var s := Run(flavour, OneConfig(Ready), LostDeletion()); Idle(s) && !Correct(s)
  {
    var deletion, handled := [WriteSecret(SECRET_KEY, None), DeliverSecret], [HandleSecret(SECRET_KEY, true)];
    SettleExample(flavour);
    RunAppend(flavour, OneConfig(Ready), [HandleConfig(CONFIG_KEY)] + Reconcile(CONFIG_KEY, false, Accepted),
              deletion + handled);
    var s := OneConfig(Ready).(notices := multiset{});
    RunAppend(flavour, s, deletion, handled);
    RunTwo(flavour, s, deletion[0], deletion[1]);
    DeletionUnhandled(flavour);
  }

  lemma DeletionUnhandled(flavour: Flavour)
    ensures var s := OneConfig(Ready).(notices := multiset{});
      var t := Run(flavour, Next(flavour, Next(flavour, s, WriteSecret(SECRET_KEY, None)), DeliverSecret),
                   [HandleSecret(SECRET_KEY, true)]);
      Idle(t) && !Correct(t)
  {
    var s := OneConfig(Ready).(notices := multiset{});
    var s1 := Next(flavour, Next(flavour, s, WriteSecret(SECRET_KEY, None)), DeliverSecret);
    assert s1 == s.(secrets := map[], cachedSecrets := map[], notices := multiset{SecretNotice(SECRET_KEY)});
    var t := Next(flavour, s1, HandleSecret(SECRET_KEY, true));
    assert Run(flavour, s1, [HandleSecret(SECRET_KEY, true)]) == Run(flavour, t, []);
    assert CONFIG_KEY in t.configs && t.configs[CONFIG_KEY].state == Ready;
  }

  /** Convergence holds for every run exactly if the mapping function can always list the configs and,
      for HTTP, the secret can always be read. */
  lemma ConvergesIff(flavour: Flavour, getMayFail: bool, listMayFail: bool)
    ensures AlwaysConverges(flavour, getMayFail, listMayFail) <==> !listMayFail && (getMayFail ==> flavour == IPXE)
  {
    if !listMayFail && (getMayFail ==> flavour == IPXE) {
      forall s, actions | Init(s) && ToleratesAll(actions, getMayFail, listMayFail) && Idle(Run(flavour, s, actions))
        ensures Correct(Run(flavour, s, actions))
      {
        Converges(flavour, s, actions);
      }
    } else if listMayFail {
      LostDeletionStays(flavour);
      assert Init(OneConfig(Ready)) && ToleratesAll(LostDeletion(), getMayFail, listMayFail);
    } else {
      SwallowedErrorStays();
      assert Init(OneConfig(Error)) &&
        ToleratesAll([HandleConfig(CONFIG_KEY)] + Reconcile(CONFIG_KEY, true, Accepted), getMayFail, listMayFail);
    }
  }
}
