/**
 The HTTPBootConfig and IPXEBootConfig reconcilers
 (internal/controller/httpbootconfig_controller.go, ipxebootconfig_controller.go) as a protocol.

 Writes go to the API server, which streams them to the operator.  The operator reads from a cache
 that lags behind the server.  Delivering a change updates the cache and leaves a notice; handling a
 notice puts config keys in the work queue.  Reconciling a key is four separate steps: dequeue, read
 the config, judge it against the cached secret, patch its status.  Anything may happen in between,
 but the work queue never has one key reconciled twice at the same time.
 */
module BootConfigController {
  import opened Wrappers

  datatype Key = Key(namespace: string, name: string)

  datatype State = Unset | Pending | Ready | Error

  datatype Config = Config(ignitionSecretRef: Option<string>, deleting: bool, state: State)

  datatype Secret = Secret(data: map<string, string>)

  const IGNITION_KEY := "ignition"

  /** The two reconcilers differ in two places: HTTP skips a patch that changes nothing and swallows
      the error of `ensureIgnition`; IPXE returns it, so the key is queued again. */
  datatype Flavour = HTTP | IPXE

  datatype Change<T> = Change(key: Key, now: Option<T>)

  datatype Notice = ConfigNotice(key: Key) | SecretNotice(key: Key)

  datatype Phase =
    | Started
    | Read(config: Config)
    | Judged(config: Config, verdict: State)

  datatype System = System(
    configs: map<Key, Config>,
    secrets: map<Key, Secret>,
    configStream: seq<Change<Config>>,
    secretStream: seq<Change<Secret>>,
    cachedConfigs: map<Key, Config>,
    cachedSecrets: map<Key, Secret>,
    notices: multiset<Notice>,
    queue: set<Key>,
    inFlight: map<Key, Phase>)

  datatype Reply = Accepted | Refused | ReplyLost

  datatype Action =
    | WriteConfig(key: Key, config: Option<Config>)
    | WriteSecret(key: Key, secret: Option<Secret>)
    | DeliverConfig
    | DeliverSecret
    | HandleConfig(key: Key)
    | HandleSecret(key: Key, listFails: bool)
    | Dequeue(key: Key)
    | ReadConfig(key: Key)
    | ReadSecret(key: Key, getFails: bool)
    | PatchStatus(key: Key, reply: Reply)

  function Put<T>(m: map<Key, T>, key: Key, value: Option<T>): map<Key, T> {
    if value.Some? then m[key := value.value] else m - {key}
  }

  // ----- What one reconcile computes -------------------------------------------------------------

  function SecretKeyOf(key: Key, config: Config): Option<Key> {
    if config.ignitionSecretRef.Some? then Some(Key(key.namespace, config.ignitionSecretRef.value)) else None
  }

  /** `ensureIgnition` on given secrets: Ready unless the referenced secret or its ignition data is missing. */
  function Verdict(secrets: map<Key, Secret>, key: Key, config: Config): State {
    match SecretKeyOf(key, config)
    case None => Ready
    case Some(secret) => if secret in secrets && IGNITION_KEY in secrets[secret].data then Ready else Error
  }

  /** The watch-mapping function: the configs of the secret's namespace that refer to it. */
  function Referencing(configs: map<Key, Config>, secret: Key): set<Key> {
    set key | key in configs && SecretKeyOf(key, configs[key]) == Some(secret)
  }

  datatype Patched = Patched(configs: map<Key, Config>, stream: seq<Change<Config>>, failed: bool)

  /** `patchStatus`: a merge patch writing `state` if it differs from the object read earlier. */
  function Patch(flavour: Flavour, configs: map<Key, Config>, stream: seq<Change<Config>>,
                 key: Key, base: Config, state: State, reply: Reply): Patched
  {
    if flavour == HTTP && base.state == state then Patched(configs, stream, false)
    else if reply == Refused || key !in configs then Patched(configs, stream, true)
    else if base.state == state || configs[key].state == state then Patched(configs, stream, reply == ReplyLost)
    else
      var now := configs[key].(state := state);
      Patched(configs[key := now], stream + [Change(key, Some(now))], reply == ReplyLost)
  }

  // ----- The protocol ------------------------------------------------------------------------------

  function Next(flavour: Flavour, s: System, a: Action): System {
    match a
    case WriteConfig(key, config) =>
      s.(configs := Put(s.configs, key, config), configStream := s.configStream + [Change(key, config)])
    case WriteSecret(key, secret) =>
      s.(secrets := Put(s.secrets, key, secret), secretStream := s.secretStream + [Change(key, secret)])
    case DeliverConfig =>
      if s.configStream == [] then s
      else
        var change := s.configStream[0];
        s.(configStream := s.configStream[1..],
           cachedConfigs := Put(s.cachedConfigs, change.key, change.now),
           notices := s.notices + multiset{ConfigNotice(change.key)})
    case DeliverSecret =>
      if s.secretStream == [] then s
      else
        var change := s.secretStream[0];
        s.(secretStream := s.secretStream[1..],
           cachedSecrets := Put(s.cachedSecrets, change.key, change.now),
           notices := s.notices + multiset{SecretNotice(change.key)})
    case HandleConfig(key) =>
      if ConfigNotice(key) !in s.notices then s
      else s.(notices := s.notices - multiset{ConfigNotice(key)}, queue := s.queue + {key})
    case HandleSecret(key, listFails) =>
      if SecretNotice(key) !in s.notices then s
      else s.(notices := s.notices - multiset{SecretNotice(key)},
              queue := s.queue + if listFails then {} else Referencing(s.cachedConfigs, key))
    case Dequeue(key) =>
      if key !in s.queue || key in s.inFlight then s
      else s.(queue := s.queue - {key}, inFlight := s.inFlight[key := Started])
    case ReadConfig(key) =>
      if key !in s.inFlight || !s.inFlight[key].Started? then s
      else if key !in s.cachedConfigs || s.cachedConfigs[key].deleting then s.(inFlight := s.inFlight - {key})
      else s.(inFlight := s.inFlight[key := Read(s.cachedConfigs[key])])
    case ReadSecret(key, getFails) =>
      if key !in s.inFlight || !s.inFlight[key].Read? then s
      else
        var config := s.inFlight[key].config;
        var verdict := if getFails &&
            config.ignitionSecretRef.Some? then Error else Verdict(s.cachedSecrets, key, config);
        s.(inFlight := s.inFlight[key := Judged(config, verdict)])
    case PatchStatus(key, reply) =>
      if key !in s.inFlight || !s.inFlight[key].Judged? then s
      else
        var Judged(config, verdict) := s.inFlight[key];
        var p := Patch(flavour, s.configs, s.configStream, key, config, verdict, reply);
        var again := p.failed || (verdict == Error && flavour == IPXE);
        s.(configs := p.configs, configStream := p.stream, inFlight := s.inFlight - {key},
           queue := if again then s.queue + {key} else s.queue)
  }

  function Run(flavour: Flavour, s: System, actions: seq<Action>): System
    decreases |actions|
  {
    if actions == [] then s else Run(flavour, Next(flavour, s, actions[0]), actions[1..])
  }

  /** The operator has just started: the cache is filled, and every cached object is announced. */
  ghost predicate Init(s: System) {
    && s.configStream == [] && s.secretStream == [] && s.queue == {} && s.inFlight == map[]
    && s.cachedConfigs == s.configs && s.cachedSecrets == s.secrets
    && forall key :: key in s.configs ==> ConfigNotice(key) in s.notices
  }

  ghost predicate Idle(s: System) {
    s.configStream == [] && s.secretStream == [] && s.notices == multiset{} && s.queue == {} && s.inFlight == map[]
  }

  /** A config that is not being deleted is Ready if it refers to no secret, or if the secret of that name in
      its namespace exists and has ignition data; otherwise it is in Error. */
  ghost predicate Correct(s: System) {
    forall key :: key in s.configs && !s.configs[key].deleting ==>
      s.configs[key].state ==
        match s.configs[key].ignitionSecretRef
        case None => Ready
        case Some(name) =>
          var secret := Key(key.namespace, name);
          if secret in s.secrets && "ignition" in s.secrets[secret].data then Ready else Error
  }
}
