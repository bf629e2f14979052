/**
 The two reconcilers as code (internal/controller/httpbootconfig_controller.go,
 ipxebootconfig_controller.go), proved against the steps of BootConfigController.
 */
module BootConfigReconciler {
  import opened Wrappers
  import opened BootConfigController
  import opened BootConfigConvergence

  /** API server, cache, and work queue, and one of the two reconcilers at work on them. */
  class Operator {
    const flavour: Flavour
    var configs: map<Key, Config>
    var secrets: map<Key, Secret>
    var configStream: seq<Change<Config>>
    var secretStream: seq<Change<Secret>>
    var cachedConfigs: map<Key, Config>
    var cachedSecrets: map<Key, Secret>
    var notices: multiset<Notice>
    var queue: set<Key>
    var inFlight: map<Key, Phase>

    ghost function Contents(): System
      reads this
    {
      System(configs, secrets, configStream, secretStream, cachedConfigs, cachedSecrets, notices, queue, inFlight)
    }

    constructor (flavour: Flavour, configs: map<Key, Config>, secrets: map<Key, Secret>)
      ensures this.flavour == flavour && this.configs == configs && this.secrets == secrets
      ensures Init(Contents())
    {
      this.flavour := flavour;
      this.configs, this.cachedConfigs, this.configStream := configs, configs, [];
      this.secrets, this.cachedSecrets, this.secretStream := secrets, secrets, [];
      this.notices := multiset(set key | key in configs :: ConfigNotice(key));
      this.queue, this.inFlight := {}, map[];
    }

    /** `ensureIgnition`: the state to write, and whether there is an error. */
    method EnsureIgnition(key: Key, config: Config, getFails: bool) returns (state: State, failed: bool)
      ensures state == if getFails && config.ignitionSecretRef.Some? then Error else Verdict(cachedSecrets, key, config)
      ensures failed <==> state == Error
      ensures state ==
        if config.ignitionSecretRef.None? then Ready
        else
          var secret := Key(key.namespace, config.ignitionSecretRef.value);
          if !getFails && secret in cachedSecrets && "ignition" in cachedSecrets[secret].data then Ready else Error
    {
      if config.ignitionSecretRef.Some? {
        var secret := Key(key.namespace, config.ignitionSecretRef.value);
        if getFails || secret !in cachedSecrets {
          return Error, true;
        }
        if IGNITION_KEY !in cachedSecrets[secret].data {
          return Error, true;
        }
      }
      return Ready, false;
    }

    /** `patchStatus`; `config` is the object as read. */
    method PatchState(key: Key, config: Config, state: State, reply: Reply) returns (failed: bool)
      modifies `configs, `configStream
      ensures Patched(configs, configStream, failed)
           == Patch(flavour, old(configs), old(configStream), key, config, state, reply)
      ensures configs.Keys == old(configs).Keys && forall other :: other in configs && other != key ==>
        configs[other] == old(configs)[other]
      ensures flavour == HTTP && config.state == state ==> !failed && configs == old(configs)
      ensures flavour == IPXE || config.state != state ==> (failed <==> reply != Accepted || key !in old(configs))
      ensures key in configs && config.state != state ==>
        configs[key] == old(configs)[key].(state := if reply == Refused then old(configs)[key].state else state)
    {
      if flavour == HTTP && config.state == state {
        return false;
      }
      var base, modified := config, config.(state := state);
      failed := SendPatch(key, base, modified, reply);
    }

    /** The API server's side of a status patch, `reply` being what may go wrong. */
    method SendPatch(key: Key, base: Config, modified: Config, reply: Reply) returns (failed: bool)
      modifies `configs, `configStream
      ensures
        if reply == Refused || key !in old(configs) then
          failed && configs == old(configs) && configStream == old(configStream)
        else
          && (failed <==> reply == ReplyLost)
          && (if modified.state == base.state || old(configs)[key].state == modified.state then
                configs == old(configs) && configStream == old(configStream)
              else
                var now := old(configs)[key].(state := modified.state);
                configs == old(configs)[key := now] && configStream == old(configStream) + [Change(key, Some(now))])
    {
      if reply == Refused || key !in configs {
        return true;
      }
      if modified.state != base.state && configs[key].state != modified.state {
        var now := configs[key].(state := modified.state);
        configs := configs[key := now];
        configStream := configStream + [Change(key, Some(now))];
      }
      return reply == ReplyLost;
    }

    /** `reconcile`: whether an error is returned, so the key is queued again. */
    method ReconcileExisting(key: Key, config: Config, getFails: bool, reply: Reply) returns (failed: bool)
      modifies `configs, `configStream
      ensures
        var verdict := if getFails &&
            config.ignitionSecretRef.Some? then Error else Verdict(cachedSecrets, key, config);
        var p := Patch(flavour, old(configs), old(configStream), key, config, verdict, reply);
        configs == p.configs && configStream == p.stream &&
            (failed <==> p.failed || (verdict == Error && flavour == IPXE))
    {
      var state, ignitionFailed := EnsureIgnition(key, config, getFails);
      if ignitionFailed {
        failed := PatchState(key, config, state, reply);
        if failed {
          return;
        }
        return flavour == IPXE;
      }
      failed := PatchState(key, config, state, reply);
    }

    /** Taking a key from the work queue, `Reconcile`, and queueing it again after an error: a run of the
        protocol, so the results over all runs speak of it. */
    method Process(key: Key, getFails: bool, reply: Reply)
      requires key in queue && key !in inFlight
      modifies `queue, `configs, `configStream
      ensures Contents() == Run(flavour, old(Contents()), Reconcile(key, getFails, reply))
    {
      ReconcileRuns(flavour, Contents(), key, getFails, reply);
      if key !in cachedConfigs || cachedConfigs[key].deleting {
        queue := queue - {key};
      } else {
        ProcessExisting(key, cachedConfigs[key], getFails, reply);
      }
    }

    method ProcessExisting(key: Key, config: Config, getFails: bool, reply: Reply)
      modifies `queue, `configs, `configStream
      ensures
        var s := old(Contents());
        Contents() == Finished(flavour, s, key, config, Judgement(s, key, config, getFails), reply)
    {
      queue := queue - {key};
      var failed := ReconcileExisting(key, config, getFails, reply);
      if failed {
        queue := queue + {key};
      }
    }

    /** The cached configs of a namespace, in some order. */
    method ListInNamespace(namespace: string) returns (items: seq<Key>)
      ensures forall key :: key in items <==> key in cachedConfigs && key.namespace == namespace
    {
      items := [];
      var rest := cachedConfigs.Keys;
      while rest != {}
        invariant rest <= cachedConfigs.Keys
        invariant forall key :: key in items <==> key in cachedConfigs.Keys - rest && key.namespace == namespace
      {
        var key :| key in rest;
        rest := rest - {key};
        if key.namespace == namespace {
          items := items + [key];
        }
      }
    }

    /** `enqueue...BootConfigReferencingIgnitionSecret` */
    method EnqueueReferencing(secret: Key, listFails: bool) returns (requests: seq<Key>)
      ensures listFails ==> requests == []
      ensures !listFails ==> forall key :: key in requests <==> key in Referencing(cachedConfigs, secret)
    {
      if listFails {
        return [];
      }
      var items := ListInNamespace(secret.namespace);
      requests := [];
      for i := 0 to |items|
        invariant forall key :: key in requests <==> key in items[..i] && key in Referencing(cachedConfigs, secret)
      {
        var config := cachedConfigs[items[i]];
        assert items[..i + 1] == items[..i] + [items[i]];
        if config.ignitionSecretRef.Some? && config.ignitionSecretRef.value == secret.name {
          requests := requests + [items[i]];
        }
      }
      assert items[..|items|] == items;
    }

    /** The watch handler of secrets. */
    method HandleSecretNotice(secret: Key, listFails: bool)
      requires SecretNotice(secret) in notices
      modifies `notices, `queue
      ensures Contents() == Next(flavour, old(Contents()), HandleSecret(secret, listFails))
    {
      var requests := EnqueueReferencing(secret, listFails);
      notices := notices - multiset{SecretNotice(secret)};
      var keys := set key | key in requests;
      assert keys == if listFails then {} else Referencing(cachedConfigs, secret);
      queue := queue + keys;
    }
  }
}
