/**
 The protocol cannot livelock: left alone, with no more writes and no faults, it comes to rest however
 it is scheduled, if the news that was waiting is delivered; for IPXE if moreover every verdict is Ready.
 */
module BootConfigLivelock {
  import opened Wrappers
  import opened BootConfigController
  import opened BootConfigConvergence
  import opened BootConfigSettling

  // ----- Schedules -----------------------------------------------------------------------------------------

  /** The action does something. */
  predicate Enabled(s: System, a: Action) {
    match a
    case WriteConfig(_, _) => true
    case WriteSecret(_, _) => true
    case DeliverConfig => s.configStream != []
    case DeliverSecret => s.secretStream != []
    case HandleConfig(key) => ConfigNotice(key) in s.notices
    case HandleSecret(key, _) => SecretNotice(key) in s.notices
    case Dequeue(key) => key in s.queue && key !in s.inFlight
    case ReadConfig(key) => key in s.inFlight && s.inFlight[key].Started?
    case ReadSecret(key, _) => key in s.inFlight && s.inFlight[key].Read?
    case PatchStatus(key, _) => key in s.inFlight && s.inFlight[key].Judged?
  }

  ghost function StateAt(flavour: Flavour, s: System, schedule: nat -> Action, n: nat): System {
    Iterate(Stepper(flavour), s, schedule, n)
  }

  ghost function Stepper(flavour: Flavour): (System, Action) -> System {
    (s, a) => Next(flavour, s, a)
  }

  ghost function Iterate(next: (System, Action) -> System, s: System, schedule: nat -> Action, n: nat): System {
    if n == 0 then s else next(Iterate(next, s, schedule, n - 1), schedule(n - 1))
  }

  ghost predicate Busy(flavour: Flavour, s: System, schedule: nat -> Action, n: nat) {
    Quiet(schedule(n)) && Enabled(StateAt(flavour, s, schedule, n), schedule(n))
  }

  /** A schedule that is busy for ever. */
  ghost predicate Endless(flavour: Flavour, s: System, schedule: nat -> Action) {
    forall n: nat :: Busy(flavour, s, schedule, n)
  }

  // ----- Delivered news ------------------------------------------------------------------------------------

  ghost predicate SameSpec(c: Config, d: Config) {
    c.(state := Unset) == d.(state := Unset)
  }

  /** A change that tells of a new status only. */
  ghost predicate StatusOnly(s: System, change: Change<Config>) {
    change.now.Some? && change.key in s.configs && SameSpec(change.now.value, s.configs[change.key])
  }

  /** The cache knows all but statuses. */
  ghost predicate Delivered(s: System) {
    && s.secretStream == [] && s.cachedSecrets == s.secrets
    && SameSpecs(s.cachedConfigs, s.configs)
    && forall i :: 0 <= i < |s.configStream| ==> StatusOnly(s, s.configStream[i])
  }

  function VerdictOf(s: System, key: Key): State
    requires key in s.configs
  {
    Verdict(s.secrets, key, s.configs[key])
  }

  // ----- The measure -----------------------------------------------------------------------------------------

  /** A reconcile that will write, or has decided on, something else than the verdict. */
  ghost predicate BadPhase(s: System, key: Key)
    requires key in s.inFlight
  {
    match s.inFlight[key]
    case Started => false
    case Read(config) => !(key in s.configs && SameSpec(config, s.configs[key]) && !config.deleting)
    case Judged(config, verdict) => !(key in s.configs && verdict == VerdictOf(s, key) && !s.configs[key].deleting)
  }

  ghost function Bad(s: System): set<Key> {
    set key | key in s.inFlight && BadPhase(s, key)
  }

  ghost function Wrong(s: System): set<Key> {
    set key | key in s.configs && s.configs[key].state != VerdictOf(s, key)
  }

  ghost function Starting(s: System): set<Key> {
    set key | key in s.inFlight && s.inFlight[key].Started?
  }

  ghost function Reading(s: System): set<Key> {
    set key | key in s.inFlight && s.inFlight[key].Read?
  }

  ghost function Patching(s: System): set<Key> {
    set key | key in s.inFlight && s.inFlight[key].Judged?
  }

  /** In the order of their weight. */
  datatype Measure = Measure(
    bad: nat, wrong: nat, stream: nat, notices: nat, queue: nat, starting: nat, reading: nat, patching: nat)

  ghost function MeasureOf(s: System): Measure {
    Measure(|Bad(s)|, |Wrong(s)|, |s.configStream|, |s.notices|, |s.queue|, |Starting(s)|, |Reading(s)|, |Patching(s)|)
  }

  ghost predicate Less(m: Measure, n: Measure) {
    || m.bad < n.bad
    || (m.bad == n.bad && (m.wrong < n.wrong
    || (m.wrong == n.wrong && (m.stream < n.stream
    || (m.stream == n.stream && (m.notices < n.notices
    || (m.notices == n.notices && (m.queue < n.queue
    || (m.queue == n.queue && (m.starting < n.starting
    || (m.starting == n.starting && (m.reading < n.reading
    || (m.reading == n.reading && m.patching < n.patching)))))))))))))
  }

  /** What the steps below suppose and keep. */
  ghost predicate Settleable(flavour: Flavour, s: System) {
    Delivered(s) && (flavour == IPXE ==> AllReady(s))
  }

  // ----- Every step descends ----------------------------------------------------------------------------------

  lemma DeliverDescends(flavour: Flavour, s: System)
    requires Settleable(flavour, s) && s.configStream != []
    ensures var t := Next(flavour, s, DeliverConfig); Settleable(flavour, t) && Less(MeasureOf(t), MeasureOf(s))
  {
    var t := Next(flavour, s, DeliverConfig);
    assert StatusOnly(s, s.configStream[0]);
    assert forall i :: 0 <= i < |t.configStream| ==> t.configStream[i] == s.configStream[i + 1];
    assert Bad(t) == Bad(s) && Wrong(t) == Wrong(s);
  }

  lemma HandleDescends(flavour: Flavour, s: System, notice: Notice)
    requires Settleable(flavour, s) && notice in s.notices
    ensures var t := Next(flavour, s, Handler(notice)); Settleable(flavour, t) && Less(MeasureOf(t), MeasureOf(s))
  {
    var t := Next(flavour, s, Handler(notice));
    assert t == s.(notices := s.notices - multiset{notice}, queue := t.queue);
    assert Bad(t) == Bad(s) && Wrong(t) == Wrong(s);
  }

  lemma DequeueDescends(flavour: Flavour, s: System, key: Key)
    requires Settleable(flavour, s) && key in s.queue && key !in s.inFlight
    ensures var t := Next(flavour, s, Dequeue(key)); Settleable(flavour, t) && Less(MeasureOf(t), MeasureOf(s))
  {
    var t := Next(flavour, s, Dequeue(key));
    assert Bad(t) == Bad(s) && Wrong(t) == Wrong(s);
  }

  /** A reconcile that leaves its first phase, for a good one or for none. */
  lemma StartedDescends(s: System, t: System, key: Key)
    requires key in s.inFlight && s.inFlight[key].Started?
    requires t == s.(inFlight := t.inFlight) && t.inFlight - {key} == s.inFlight - {key}
    requires key in t.inFlight ==> !t.inFlight[key].Started? && !BadPhase(t, key)
    ensures Less(MeasureOf(t), MeasureOf(s))
  {
    forall k | k != key ensures k in t.inFlight <==> k in s.inFlight
      ensures k in s.inFlight ==> t.inFlight[k] == s.inFlight[k]
    {
      assert k in t.inFlight - {key} <==> k in s.inFlight - {key};
      if k in s.inFlight { assert (t.inFlight - {key})[k] == (s.inFlight - {key})[k]; }
    }
    assert Wrong(t) == Wrong(s);
    assert Bad(t) == Bad(s);
    assert Starting(t) == Starting(s) - {key};
  }

  lemma ReadConfigShape(flavour: Flavour, s: System, key: Key)
    requires Settleable(flavour, s) && key in s.inFlight && s.inFlight[key].Started?
    ensures var t := Next(flavour, s, ReadConfig(key));
      && t == s.(inFlight := t.inFlight) && t.inFlight - {key} == s.inFlight - {key}
      && (key in t.inFlight ==>
            key in s.cachedConfigs && t.inFlight[key] == Read(s.cachedConfigs[key]) && !s.cachedConfigs[key].deleting)
  {
  }

  lemma ReadConfigDescends(flavour: Flavour, s: System, key: Key)
    requires Settleable(flavour, s) && key in s.inFlight && s.inFlight[key].Started?
    ensures var t := Next(flavour, s, ReadConfig(key)); Settleable(flavour, t) && Less(MeasureOf(t), MeasureOf(s))
  {
    var t := Next(flavour, s, ReadConfig(key));
    ReadConfigShape(flavour, s, key);
    if key in t.inFlight { assert SameSpec(s.cachedConfigs[key], s.configs[key]); }
    StartedDescends(s, t, key);
  }

  lemma VerdictBySpec(secrets: map<Key, Secret>, key: Key, c: Config, d: Config)
    requires SameSpec(c, d)
    ensures Verdict(secrets, key, c) == Verdict(secrets, key, d) && c.deleting == d.deleting
  {
    assert c.(state := Unset).ignitionSecretRef == d.(state := Unset).ignitionSecretRef;
    assert c.(state := Unset).deleting == d.(state := Unset).deleting;
  }

  lemma ReadSecretDescends(flavour: Flavour, s: System, key: Key)
    requires Settleable(flavour, s) && key in s.inFlight && s.inFlight[key].Read?
    ensures var t := Next(flavour, s, ReadSecret(key, false));
      Settleable(flavour, t) && Less(MeasureOf(t), MeasureOf(s))
  {
    var config := s.inFlight[key].config;
    var t := Next(flavour, s, ReadSecret(key, false));
    if key in s.configs && SameSpec(config, s.configs[key]) { VerdictBySpec(s.secrets, key, config, s.configs[key]); }
    assert Wrong(t) == Wrong(s);
    assert Bad(t) <= Bad(s) by {
      assert forall k :: k in t.inFlight && k != key ==> (BadPhase(t, k) <==> BadPhase(s, k));
    }
    Subset(Bad(t), Bad(s));
    assert Starting(t) == Starting(s);
    assert Reading(t) == Reading(s) - {key};
  }

  lemma Subset(a: set<Key>, b: set<Key>)
    requires a <= b
    ensures |a| <= |b|
  {
    assert b == a + (b - a);
  }

  /** A patch of a bad verdict: whatever it does, one bad reconcile is gone. */
  lemma BadPatchDescends(flavour: Flavour, s: System, key: Key)
    requires Settleable(flavour, s) && key in s.inFlight && s.inFlight[key].Judged? && BadPhase(s, key)
    ensures |Bad(Next(flavour, s, PatchStatus(key, Accepted)))| < |Bad(s)|
  {
    var t := Next(flavour, s, PatchStatus(key, Accepted));
    PatchShape(flavour, s, key);
    forall k | k in t.inFlight ensures k in s.inFlight && k != key && (BadPhase(t, k) <==> BadPhase(s, k)) {
      if k in s.configs { VerdictBySpec(s.secrets, k, t.configs[k], s.configs[k]); }
    }
    assert Bad(t) == Bad(s) - {key};
  }

  /** A patch changes at most a status, and tells of it. */
  lemma PatchShape(flavour: Flavour, s: System, key: Key)
    requires key in s.inFlight && s.inFlight[key].Judged?
    ensures var t := Next(flavour, s, PatchStatus(key, Accepted));
      && t.secrets == s.secrets && t.cachedSecrets == s.cachedSecrets && t.secretStream == s.secretStream
      && t.cachedConfigs == s.cachedConfigs && t.inFlight == s.inFlight - {key}
      && t.configs.Keys == s.configs.Keys && (forall k :: k in s.configs ==> SameSpec(t.configs[k], s.configs[k]))
      && (t.configStream == s.configStream
          || (key in s.configs && t.configStream == s.configStream + [Change(key, Some(t.configs[key]))]))
  {
  }

  lemma PatchKeepsSettleable(flavour: Flavour, s: System, key: Key)
    requires Settleable(flavour, s) && key in s.inFlight && s.inFlight[key].Judged?
    ensures Settleable(flavour, Next(flavour, s, PatchStatus(key, Accepted)))
  {
    var t := Next(flavour, s, PatchStatus(key, Accepted));
    PatchShape(flavour, s, key);
    forall i | 0 <= i < |t.configStream| ensures StatusOnly(t, t.configStream[i]) {
      if i < |s.configStream| { assert t.configStream[i] == s.configStream[i] && StatusOnly(s, s.configStream[i]); }
    }
    forall k | k in s.configs ensures Verdict(s.secrets, k, t.configs[k]) == VerdictOf(s, k) {
      VerdictBySpec(s.secrets, k, t.configs[k], s.configs[k]);
    }
  }

  /** A patch of the verdict itself either rights a status or changes nothing. */
  lemma GoodPatch(flavour: Flavour, s: System, key: Key)
    requires Settleable(flavour, s) && key in s.inFlight && s.inFlight[key].Judged? && !BadPhase(s, key)
    ensures var t := Next(flavour, s, PatchStatus(key, Accepted));
      t == s.(inFlight := s.inFlight - {key})
      || (s.configs[key].state != VerdictOf(s, key) &&
          t.configs == s.configs[key := s.configs[key].(state := VerdictOf(s, key))])
  {
  }

  lemma GoodPatchDescends(flavour: Flavour, s: System, key: Key)
    requires Settleable(flavour, s) && key in s.inFlight && s.inFlight[key].Judged? && !BadPhase(s, key)
    ensures Less(MeasureOf(Next(flavour, s, PatchStatus(key, Accepted))), MeasureOf(s))
  {
    var t := Next(flavour, s, PatchStatus(key, Accepted));
    PatchShape(flavour, s, key);
    GoodPatch(flavour, s, key);
    forall k | k in t.inFlight ensures k in s.inFlight && k != key && (BadPhase(t, k) <==> BadPhase(s, k)) {
      if k in s.configs { VerdictBySpec(s.secrets, k, t.configs[k], s.configs[k]); }
    }
    assert Bad(t) == Bad(s);
    if t == s.(inFlight := s.inFlight - {key}) {
      SamePhases(s, t, key);
    } else {
      RightedOne(s, t, key);
    }
  }

  lemma SamePhases(s: System, t: System, key: Key)
    requires key in s.inFlight && s.inFlight[key].Judged? && t == s.(inFlight := s.inFlight - {key})
    ensures Wrong(t) == Wrong(s) && Starting(t) == Starting(s) && Reading(t) == Reading(s)
    ensures |Patching(t)| < |Patching(s)|
  {
    assert Patching(t) == Patching(s) - {key};
  }

  lemma RightedOne(s: System, t: System, key: Key)
    requires key in s.configs && s.configs[key].state != VerdictOf(s, key) && t.secrets == s.secrets
    requires t.configs == s.configs[key := s.configs[key].(state := VerdictOf(s, key))]
    ensures |Wrong(t)| < |Wrong(s)|
  {
    assert Wrong(t) == Wrong(s) - {key};
  }

  lemma StepDescends(flavour: Flavour, s: System, a: Action)
    requires Settleable(flavour, s) && Quiet(a) && Enabled(s, a)
    ensures Settleable(flavour, Next(flavour, s, a)) && Less(MeasureOf(Next(flavour, s, a)), MeasureOf(s))
  {
    match a
    case DeliverConfig => DeliverDescends(flavour, s);
    case HandleConfig(key) => HandleDescends(flavour, s, ConfigNotice(key));
    case HandleSecret(key, _) => HandleDescends(flavour, s, SecretNotice(key));
    case Dequeue(key) => DequeueDescends(flavour, s, key);
    case ReadConfig(key) => ReadConfigDescends(flavour, s, key);
    case ReadSecret(key, _) => ReadSecretDescends(flavour, s, key);
    case PatchStatus(key, _) =>
      PatchKeepsSettleable(flavour, s, key);
      if BadPhase(s, key) { BadPatchDescends(flavour, s, key); } else { GoodPatchDescends(flavour, s, key); }
  }

  /** So no schedule is busy for ever once the news has been delivered. */
  lemma {:induction false} NoEndlessFrom(flavour: Flavour, s: System, schedule: nat -> Action, n: nat, m: Measure)
    requires Endless(flavour, s, schedule) && Settleable(flavour, StateAt(flavour, s, schedule, n))
    requires m == MeasureOf(StateAt(flavour, s, schedule, n))
    ensures false
    decreases m.bad, m.wrong, m.stream, m.notices, m.queue, m.starting, m.reading, m.patching
  {
    assert Busy(flavour, s, schedule, n);
    StepDescends(flavour, StateAt(flavour, s, schedule, n), schedule(n));
    NoEndlessFrom(flavour, s, schedule, n + 1, MeasureOf(StateAt(flavour, s, schedule, n + 1)));
  }

  // ----- News that is waiting -----------------------------------------------------------------------------------

  /** The first `k` changes of the stream are news, the others tell of statuses only. */
  ghost predicate Backlog(s: System, k: nat) {
    && k <= |s.configStream|
    && SameSpecs(ApplyAll(s.cachedConfigs, s.configStream[..k]), s.configs)
    && (forall i :: k <= i < |s.configStream| ==> StatusOnly(s, s.configStream[i]))
    && ApplyAll(s.cachedSecrets, s.secretStream) == s.secrets
  }

  lemma AllIsBacklog(s: System)
    requires CacheFollows(s)
    ensures Backlog(s, |s.configStream|)
  {
    assert s.configStream[..|s.configStream|] == s.configStream;
  }

  lemma NoBacklog(s: System)
    requires Backlog(s, 0) && s.secretStream == []
    ensures Delivered(s)
  {
    assert s.configStream[..0] == [];
  }

  lemma DeliverBacklog(flavour: Flavour, s: System, k: nat)
    requires Backlog(s, k) && s.configStream != []
    ensures Backlog(Next(flavour, s, DeliverConfig), if k == 0 then 0 else k - 1)
  {
    var t := Next(flavour, s, DeliverConfig);
    assert forall i :: 0 <= i < |t.configStream| ==> t.configStream[i] == s.configStream[i + 1];
    if k == 0 {
      assert StatusOnly(s, s.configStream[0]);
      assert s.configStream[..0] == [] && t.configStream[..0] == [];
    } else {
      assert s.configStream[..k][0] == s.configStream[0] && s.configStream[..k][1..] == t.configStream[..k - 1];
    }
  }

  lemma PatchBacklog(flavour: Flavour, s: System, key: Key, k: nat)
    requires Backlog(s, k) && key in s.inFlight && s.inFlight[key].Judged?
    ensures Backlog(Next(flavour, s, PatchStatus(key, Accepted)), k)
  {
    var t := Next(flavour, s, PatchStatus(key, Accepted));
    PatchShape(flavour, s, key);
    assert t.configStream[..k] == s.configStream[..k];
    forall i | k <= i < |t.configStream| ensures StatusOnly(t, t.configStream[i]) {
      if i < |s.configStream| { assert t.configStream[i] == s.configStream[i] && StatusOnly(s, s.configStream[i]); }
    }
  }

  lemma SecretBacklog(flavour: Flavour, s: System, k: nat)
    requires Backlog(s, k) && s.secretStream != []
    ensures Backlog(Next(flavour, s, DeliverSecret), k)
    ensures |Next(flavour, s, DeliverSecret).secretStream| == |s.secretStream| - 1
  {
  }

  /** What a step changes that has nothing to do with stores and streams. */
  ghost predicate SameStores(s: System, t: System) {
    && t.configs == s.configs && t.configStream == s.configStream && t.cachedConfigs == s.cachedConfigs
    && t.secrets == s.secrets && t.secretStream == s.secretStream && t.cachedSecrets == s.cachedSecrets
  }

  lemma HandlersSame(flavour: Flavour, s: System, notice: Notice)
    requires notice in s.notices
    ensures SameStores(s, Next(flavour, s, Handler(notice)))
  {
    var t := Next(flavour, s, Handler(notice));
    assert t == s.(notices := s.notices - multiset{notice}, queue := t.queue);
  }

  lemma PhasesSame(flavour: Flavour, s: System, a: Action)
    requires a.Dequeue? || a.ReadConfig? || a.ReadSecret?
    ensures SameStores(s, Next(flavour, s, a))
  {
  }

  lemma SameBacklog(s: System, t: System, k: nat)
    requires Backlog(s, k) && SameStores(s, t)
    ensures Backlog(t, k) && |t.secretStream| == |s.secretStream|
  {
    assert forall i :: 0 <= i < |s.configStream| && StatusOnly(s, s.configStream[i]) ==>
        StatusOnly(t, t.configStream[i]);
  }

  lemma OtherBacklog(flavour: Flavour, s: System, a: Action, k: nat)
    requires Backlog(s, k) && Quiet(a) && Enabled(s, a)
    requires !a.DeliverConfig? && !a.DeliverSecret? && !a.PatchStatus?
    ensures Backlog(Next(flavour, s, a), k) && |Next(flavour, s, a).secretStream| == |s.secretStream|
  {
    match a
    case HandleConfig(key) => HandlersSame(flavour, s, ConfigNotice(key)); SameBacklog(s, Next(flavour, s, a), k);
    case HandleSecret(key, _) => HandlersSame(flavour, s, SecretNotice(key)); SameBacklog(s, Next(flavour, s, a), k);
    case _ => PhasesSame(flavour, s, a); SameBacklog(s, Next(flavour, s, a), k);
  }

  lemma StepBacklog(flavour: Flavour, s: System, a: Action, k: nat)
    requires Backlog(s, k) && Quiet(a) && Enabled(s, a)
    ensures Backlog(Next(flavour, s, a), if a.DeliverConfig? && k > 0 then k - 1 else k)
    ensures |Next(flavour, s, a).secretStream| == |s.secretStream| - if a.DeliverSecret? then 1 else 0
  {
    match a
    case DeliverConfig => DeliverBacklog(flavour, s, k);
    case DeliverSecret => SecretBacklog(flavour, s, k);
    case PatchStatus(key, _) => PatchBacklog(flavour, s, key, k); PatchShape(flavour, s, key);
    case _ => OtherBacklog(flavour, s, a, k);
  }

  ghost function ConfigDeliveries(schedule: nat -> Action, n: nat): nat {
    if n == 0 then 0 else ConfigDeliveries(schedule, n - 1) + if schedule(n - 1).DeliverConfig? then 1 else 0
  }

  ghost function SecretDeliveries(schedule: nat -> Action, n: nat): nat {
    if n == 0 then 0 else SecretDeliveries(schedule, n - 1) + if schedule(n - 1).DeliverSecret? then 1 else 0
  }

  function Minus(a: nat, b: nat): nat {
    if a <= b then 0 else a - b
  }

  lemma Countdown(schedule: nat -> Action, n: nat, waiting: nat)
    requires n > 0
    ensures var k := Minus(waiting, ConfigDeliveries(schedule, n - 1));
      Minus(waiting, ConfigDeliveries(schedule, n)) == if schedule(n - 1).DeliverConfig? && k > 0 then k - 1 else k
  {
  }

  lemma {:induction false} BacklogAt(flavour: Flavour, s: System, schedule: nat -> Action, n: nat)
    requires Endless(flavour, s, schedule) && CacheFollows(s)
    ensures var t := StateAt(flavour, s, schedule, n);
      && Backlog(t, Minus(|s.configStream|, ConfigDeliveries(schedule, n)))
      && |t.secretStream| == |s.secretStream| - SecretDeliveries(schedule, n)
  {
    if n == 0 {
      AllIsBacklog(s);
    } else {
      BacklogAt(flavour, s, schedule, n - 1);
      Countdown(schedule, n, |s.configStream|);
      StateNext(flavour, s, schedule, n);
      var t, a := StateAt(flavour, s, schedule, n - 1), schedule(n - 1);
      assert Busy(flavour, s, schedule, n - 1);
      StepBacklog(flavour, t, a, Minus(|s.configStream|, ConfigDeliveries(schedule, n - 1)));
    }
  }

  lemma StateNext(flavour: Flavour, s: System, schedule: nat -> Action, n: nat)
    requires n > 0
    ensures StateAt(flavour, s, schedule, n) == Next(flavour, StateAt(flavour, s, schedule, n - 1), schedule(n - 1))
  {
  }

  lemma ReadyByShape(s: System, t: System)
    requires SameShape(s, t)
    ensures AllReady(s) <==> AllReady(t)
  {
    forall key | key in s.configs
      ensures Verdict(s.secrets, key, s.configs[key]) == Verdict(t.secrets, key, t.configs[key])
      ensures s.configs[key].deleting == t.configs[key].deleting
    {
      VerdictBySpec(s.secrets, key, s.configs[key], t.configs[key]);
    }
  }

  lemma {:induction false} ReadyAt(flavour: Flavour, s: System, schedule: nat -> Action, n: nat)
    requires forall i: nat :: Quiet(schedule(i))
    ensures AllReady(StateAt(flavour, s, schedule, n)) <==> AllReady(s)
  {
    if n > 0 {
      ReadyAt(flavour, s, schedule, n - 1);
      var t := StateAt(flavour, s, schedule, n - 1);
      NextShape(flavour, t, schedule(n - 1));
      ReadyByShape(t, StateAt(flavour, s, schedule, n));
    }
  }

  /** A schedule that is busy for ever never delivers some of the news that was waiting at its start; for IPXE
      another way is a verdict that is not Ready. */
  lemma EndlessStarves(flavour: Flavour, s: System, schedule: nat -> Action, n: nat)
    requires CacheFollows(s) && Endless(flavour, s, schedule) && (flavour == IPXE ==> AllReady(s))
    ensures ConfigDeliveries(schedule, n) < |s.configStream| || SecretDeliveries(schedule, n) < |s.secretStream|
  {
    BacklogAt(flavour, s, schedule, n);
    forall i: nat ensures Quiet(schedule(i)) { assert Busy(flavour, s, schedule, i); }
    ReadyAt(flavour, s, schedule, n);
    if ConfigDeliveries(schedule, n) >= |s.configStream| && SecretDeliveries(schedule, n) >= |s.secretStream| {
      NoBacklog(StateAt(flavour, s, schedule, n));
      NoEndlessFrom(flavour, s, schedule, n, MeasureOf(StateAt(flavour, s, schedule, n)));
    }
  }

  // ----- Exactly when -------------------------------------------------------------------------------------------

  ghost predicate CanStep(s: System) {
    exists a :: Quiet(a) && Enabled(s, a)
  }

  lemma BusyCanStep(s: System)
    requires !Idle(s)
    ensures CanStep(s)
  {
    if s.configStream != [] {
      assert Quiet(DeliverConfig) && Enabled(s, DeliverConfig);
    } else if s.secretStream != [] {
      assert Quiet(DeliverSecret) && Enabled(s, DeliverSecret);
    } else if s.notices != multiset{} {
      var notice :| notice in s.notices;
      assert Quiet(Handler(notice)) && Enabled(s, Handler(notice));
    } else if s.inFlight != map[] {
      var key :| key in s.inFlight;
      var a := match s.inFlight[key]
               case Started => ReadConfig(key)
               case Read(_) => ReadSecret(key, false)
               case Judged(_, _) => PatchStatus(key, Accepted);
      assert Quiet(a) && Enabled(s, a);
    } else {
      var key :| key in s.queue;
      assert Quiet(Dequeue(key)) && Enabled(s, Dequeue(key));
    }
  }

  ghost function Pick(s: System): Action {
    if CanStep(s) then
      var a :| Quiet(a) && Enabled(s, a);
      a
    else DeliverConfig
  }

  ghost function Follow(next: (System, Action) -> System, s: System, n: nat): System {
    if n == 0 then s else
      var t := Follow(next, s, n - 1);
      next(t, Pick(t))
  }

  ghost predicate Picks(next: (System, Action) -> System, s: System, schedule: nat -> Action, i: nat) {
    schedule(i) == Pick(Follow(next, s, i))
  }

  lemma {:induction false} FollowIs(next: (System, Action) -> System, s: System, schedule: nat -> Action, n: nat)
    requires forall i: nat :: Picks(next, s, schedule, i)
    ensures Iterate(next, s, schedule, n) == Follow(next, s, n)
  {
    if n > 0 {
      FollowIs(next, s, schedule, n - 1);
      assert Picks(next, s, schedule, n - 1);
    }
  }

  ghost function Followed(flavour: Flavour, s: System, n: nat): System {
    Follow(Stepper(flavour), s, n)
  }

  ghost predicate StepsOn(flavour: Flavour, s: System, i: nat) {
    CanStep(Followed(flavour, s, i))
  }

  lemma FollowedNext(flavour: Flavour, s: System, n: nat)
    requires n > 0
    ensures Followed(flavour, s, n) == Next(flavour, Followed(flavour, s, n - 1), Pick(Followed(flavour, s, n - 1)))
  {
  }

  lemma OneMore(flavour: Flavour, s: System, before: seq<Action>, t: System, u: System) returns (actions: seq<Action>)
    requires AllQuiet(before) && Run(flavour, s, before) == t && CanStep(t) && u == Next(flavour, t, Pick(t))
    ensures AllQuiet(actions) && Run(flavour, s, actions) == u
  {
    actions := before + [Pick(t)];
    RunSnoc(flavour, s, before, Pick(t));
  }

  lemma {:induction false} FollowRuns(flavour: Flavour, s: System, n: nat) returns (actions: seq<Action>)
    requires forall i: nat :: i < n ==> StepsOn(flavour, s, i)
    ensures AllQuiet(actions) && Run(flavour, s, actions) == Followed(flavour, s, n)
  {
    if n == 0 {
      actions := [];
    } else {
      var before := FollowRuns(flavour, s, n - 1);
      assert StepsOn(flavour, s, n - 1);
      FollowedNext(flavour, s, n);
      actions := OneMore(flavour, s, before, Followed(flavour, s, n - 1), Followed(flavour, s, n));
    }
  }

  lemma RunSnoc(flavour: Flavour, s: System, actions: seq<Action>, a: Action)
    ensures Run(flavour, s, actions + [a]) == Next(flavour, Run(flavour, s, actions), a)
  {
    RunAppend(flavour, s, actions, [a]);
    RunOne(flavour, Run(flavour, s, actions), a);
  }

  /** A state from which idle cannot be reached always has something to do. */
  lemma {:induction false} FollowSteps(flavour: Flavour, s: System, past: seq<Action>, n: nat)
    requires Init(s) && ToleratesAll(past, flavour == IPXE, false)
    requires flavour == IPXE && !AllReady(Run(flavour, s, past))
    ensures forall i: nat :: i <= n ==> StepsOn(flavour, Run(flavour, s, past), i)
  {
    var now := Run(flavour, s, past);
    if n > 0 { FollowSteps(flavour, s, past, n - 1); }
    var actions := FollowRuns(flavour, now, n);
    SettlesIff(flavour, s, past);
    assert !(AllQuiet(actions) && Idle(Run(flavour, now, actions)));
    BusyCanStep(Followed(flavour, now, n));
  }

  /** After any tolerated run from a start, once the news has been delivered, some schedule is busy for ever
      exactly if the flavour is IPXE and some verdict is not Ready. */
  lemma LivelockIff(flavour: Flavour, s: System, past: seq<Action>)
    requires Init(s) && ToleratesAll(past, flavour == IPXE, false) && Delivered(Run(flavour, s, past))
    ensures var now := Run(flavour, s, past);
      (exists schedule: nat -> Action :: Endless(flavour, now, schedule)) <==> flavour == IPXE && !AllReady(now)
  {
    var now := Run(flavour, s, past);
    if flavour == IPXE && !AllReady(now) {
      var schedule: nat -> Action := (n: nat) => Pick(Followed(flavour, now, n));
      forall n: nat ensures Busy(flavour, now, schedule, n) {
        FollowSteps(flavour, s, past, n);
        assert StepsOn(flavour, now, n);
        forall i: nat ensures Picks(Stepper(flavour), now, schedule, i) {}
        FollowIs(Stepper(flavour), now, schedule, n);
      }
      assert Endless(flavour, now, schedule);
    } else {
      if schedule: nat -> Action :| Endless(flavour, now, schedule) {
        NoEndlessFrom(flavour, now, schedule, 0, MeasureOf(StateAt(flavour, now, schedule, 0)));
      }
    }
  }

  // ----- Starving a deletion ----------------------------------------------------------------------------------------

  /** A queued config has been deleted, but the operator has not been told, and its old status shows another
      state than the verdict. */
  ghost predicate Starved(s: System, key: Key) {
    && key in s.queue && key !in s.inFlight && key !in s.configs && key in s.cachedConfigs
    && !s.cachedConfigs[key].deleting
    && s.cachedConfigs[key].state != Verdict(s.cachedSecrets, key, s.cachedConfigs[key])
  }

  function Round(key: Key, r: nat): Action {
    if r == 0 then Dequeue(key)
    else if r == 1 then ReadConfig(key)
    else if r == 2 then ReadSecret(key, false)
    else PatchStatus(key, Accepted)
  }

  ghost function InRound(s: System, key: Key, config: Config, r: nat): System {
    if r == 0 then s
    else if r == 1 then InPhase(s, key, Started)
    else if r == 2 then InPhase(s, key, Read(config))
    else InPhase(s, key, Judged(config, Verdict(s.cachedSecrets, key, config)))
  }

  lemma FirstSteps(s: System, key: Key)
    requires Starved(s, key)
    ensures Next(HTTP, s, Dequeue(key)) == InPhase(s, key, Started)
    ensures Next(HTTP, InPhase(s, key, Started), ReadConfig(key)) == InPhase(s, key, Read(s.cachedConfigs[key]))
  {
    var config := s.cachedConfigs[key];
    assert s.inFlight[key := Started][key := Read(config)] == s.inFlight[key := Read(config)];
  }

  lemma LastStep(s: System, key: Key, config: Config, verdict: State)
    requires Starved(s, key) && config.state != verdict
    ensures Next(HTTP, InPhase(s, key, Judged(config, verdict)), PatchStatus(key, Accepted)) == s
  {
    JudgeThenPatch(HTTP, s, key, config, verdict, Accepted);
    assert s.queue - {key} + {key} == s.queue;
  }

  lemma RoundStep(s: System, key: Key, r: nat)
    requires Starved(s, key) && r < 4
    ensures Next(HTTP, InRound(s, key, s.cachedConfigs[key], r), Round(key, r))
         == InRound(s, key, s.cachedConfigs[key], if r == 3 then 0 else r + 1)
  {
    var config := s.cachedConfigs[key];
    if r <= 1 {
      FirstSteps(s, key);
    } else if r == 2 {
      ReadThenJudge(HTTP, s, key, config, false);
    } else {
      LastStep(s, key, config, Verdict(s.cachedSecrets, key, config));
    }
  }

  lemma RoundEnabled(s: System, key: Key, r: nat)
    requires Starved(s, key) && r < 4
    ensures Quiet(Round(key, r)) && Enabled(InRound(s, key, s.cachedConfigs[key], r), Round(key, r))
  {
  }

  lemma ModNext(n: nat)
    ensures (n + 1) % 4 == if n % 4 == 3 then 0 else n % 4 + 1
  {
  }

  ghost predicate IsRound(schedule: nat -> Action, key: Key, i: nat) {
    schedule(i) == Round(key, i % 4)
  }

  /** `states` is what a schedule leads through. */
  ghost predicate Links(next: (System, Action) -> System, schedule: nat -> Action, states: nat -> System, i: nat) {
    next(states(i), schedule(i)) == states(i + 1)
  }

  lemma {:induction false} IterateIs(next: (System, Action) -> System, s: System, schedule: nat -> Action,
                                     states: nat -> System, n: nat)
    requires states(0) == s && forall i: nat :: Links(next, schedule, states, i)
    ensures Iterate(next, s, schedule, n) == states(n)
  {
    if n > 0 {
      IterateIs(next, s, schedule, states, n - 1);
      assert Links(next, schedule, states, n - 1);
    }
  }

  lemma RoundAt(s: System, key: Key, schedule: nat -> Action, n: nat)
    requires Starved(s, key) && forall i: nat :: IsRound(schedule, key, i)
    ensures StateAt(HTTP, s, schedule, n) == InRound(s, key, s.cachedConfigs[key], n % 4)
  {
    var config := s.cachedConfigs[key];
    var states: nat -> System := (i: nat) => InRound(s, key, config, i % 4);
    forall i: nat ensures Links(Stepper(HTTP), schedule, states, i) {
      assert IsRound(schedule, key, i);
      ModNext(i);
      RoundStep(s, key, i % 4);
    }
    IterateIs(Stepper(HTTP), s, schedule, states, n);
  }

  lemma RoundBusy(s: System, key: Key, schedule: nat -> Action, n: nat)
    requires Starved(s, key) && forall i: nat :: IsRound(schedule, key, i)
    ensures Busy(HTTP, s, schedule, n)
  {
    RoundAt(s, key, schedule, n);
    assert IsRound(schedule, key, n);
    RoundEnabled(s, key, n % 4);
  }

  /** The news has to be delivered: kept from the deletion of a config, the HTTP reconciler retries for ever. */
  lemma StarvedLoops(s: System, key: Key)
    requires Starved(s, key)
    ensures exists schedule: nat -> Action :: Endless(HTTP, s, schedule)
  {
    var schedule: nat -> Action := (n: nat) => Round(key, n % 4);
    forall n: nat ensures IsRound(schedule, key, n) {}
    forall n: nat ensures Busy(HTTP, s, schedule, n) { RoundBusy(s, key, schedule, n); }
    assert Endless(HTTP, s, schedule);
  }

  /** Such a state is reached by deleting a config before its first reconcile. */
  lemma StarvedIsReachable()
    ensures Init(OneConfig(Pending))
    ensures var now := Run(HTTP, OneConfig(Pending), [WriteConfig(CONFIG_KEY, None), HandleConfig(CONFIG_KEY)]);
      Starved(now, CONFIG_KEY)
  {
    RunTwo(HTTP, OneConfig(Pending), WriteConfig(CONFIG_KEY, None), HandleConfig(CONFIG_KEY));
  }
}
