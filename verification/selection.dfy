/** Which of several boot configs of one server is served (server/helper.go). */
module Selection {
  import opened Wrappers

  /** `sbcRef`: an owning ServerBootConfiguration. */
  datatype Ref = Ref(namespace: string, name: string)

  datatype OwnerReference = OwnerReference(apiVersion: string, kind: string, name: string)

  datatype Item = Item(namespace: string, ownerReferences: seq<OwnerReference>)

  datatype Server = Server(bootConfigurationRef: Option<Ref>, maintenanceBootConfigurationRef: Option<Ref>,
      inMaintenance: bool)

  datatype Lookup<+T> = Found(value: T) | NotFound | Failed

  /** What the API server answers: the server name a ServerBootConfiguration refers to, and servers. */
  datatype Cluster = Cluster(configurations: map<Ref, Lookup<string>>, servers: map<string, Lookup<Server>>)

  const API_VERSION := "metal.ironcore.dev/v1alpha1"

  const KIND := "ServerBootConfiguration"

  function Get<K, T>(answers: map<K, Lookup<T>>, key: K): Lookup<T> {
    if key in answers then answers[key] else NotFound
  }

  function KeyOf(r: Ref): string {
    r.namespace + "/" + r.name
  }

  // ----- Specification ----------------------------------------------------------------------------

  predicate IsConfiguration(r: OwnerReference) {
    r.apiVersion == API_VERSION && r.kind == KIND
  }

  /** The name of the first owning ServerBootConfiguration, "" without one. */
  function OwnerName(refs: seq<OwnerReference>): string {
    if refs == [] then "" else if IsConfiguration(refs[0]) then refs[0].name else OwnerName(refs[1..])
  }

  function Owner(item: Item): Ref {
    Ref(item.namespace, OwnerName(item.ownerReferences))
  }

  function Owners(items: seq<Item>): seq<Ref> {
    seq(|items|, i requires 0 <= i < |items| => Owner(items[i]))
  }

  /** The server one owner leads to. */
  function ServerOf(c: Cluster, owner: Ref): Lookup<Server> {
    if owner.name == "" then NotFound
    else
      match Get(c.configurations, owner)
      case NotFound => NotFound
      case Failed => Failed
      case Found(server) => Get(c.servers, server)
  }

  /** `resolveServer`: the first owner that leads anywhere decides. */
  function Resolve(c: Cluster, owners: seq<Ref>): Lookup<Server> {
    if owners == [] then NotFound
    else if ServerOf(c, owners[0]).NotFound? then Resolve(c, owners[1..])
    else ServerOf(c, owners[0])
  }

  predicate HasKey(r: Option<Ref>, owner: Ref) {
    r.Some? && KeyOf(r.value) == KeyOf(owner)
  }

  predicate IsWorkload(s: Server, owner: Ref) {
    owner.name != "" && HasKey(s.bootConfigurationRef, owner)
  }

  predicate IsMaintenance(s: Server, owner: Ref) {
    owner.name != "" && HasKey(s.maintenanceBootConfigurationRef, owner)
  }

  predicate Recognized(s: Server, owner: Ref) {
    IsWorkload(s, owner) || IsMaintenance(s, owner)
  }

  function Count(s: Server, owners: seq<Ref>): nat {
    if owners == [] then 0 else (if Recognized(s, owners[0]) then 1 else 0) + Count(s, owners[1..])
  }

  function First(p: Ref -> bool, owners: seq<Ref>): (i: Option<nat>)
    ensures i.Some? ==> i.value < |owners| && p(owners[i.value]) && forall k :: 0 <= k < i.value ==> !p(owners[k])
    ensures i.None? ==> forall k :: 0 <= k < |owners| ==> !p(owners[k])
  {
    if owners == [] then None
    else if p(owners[0]) then Some(0)
    else
      var rest := First(p, owners[1..]);
      assert forall k :: 0 < k < |owners| ==> owners[k] == owners[1..][k - 1];
      if rest.Some? then Some(rest.value + 1) else None
  }

  /** The index served, or which of the errors is returned. */
  datatype Choice = Chosen(index: nat) | NoItems | Unresolved | AllOrphaned | UnexpectedState

  function FirstOr(p: Ref -> bool, owners: seq<Ref>, otherwise: Choice): Choice {
    var i := First(p, owners);
    if i.Some? then Chosen(i.value) else otherwise
  }

  function Preferred(s: Server, owners: seq<Ref>): Choice {
    if Count(s, owners) == 0 then AllOrphaned
    else if Count(s, owners) == 1 then FirstOr(o => Recognized(s, o), owners, AllOrphaned)
    else
      var workload := FirstOr(o => IsWorkload(s, o), owners, UnexpectedState);
      if s.inMaintenance then FirstOr(o => IsMaintenance(s, o), owners, workload) else workload
  }

  function PreferredIn(c: Cluster, owners: seq<Ref>): Choice {
    match Resolve(c, owners)
    case Found(server) => Preferred(server, owners)
    case _ => Unresolved
  }

  function Select(c: Cluster, items: seq<Item>): Choice {
    if items == [] then NoItems
    else if |items| == 1 then Chosen(0)
    else PreferredIn(c, Owners(items))
  }

  // ----- The code -------------------------------------------------------------------------------------

  predicate IsOwner(r: OwnerReference) {
    r.apiVersion == "metal.ironcore.dev/v1alpha1" && r.kind == "ServerBootConfiguration"
  }

  /** The name in the first reference to an owner, "" without one. */
  predicate NamesOwner(refs: seq<OwnerReference>, name: string) {
    (name == "" && forall r :: r in refs ==> !IsOwner(r)) || exists i :: 0 <= i < |refs| && FirstOwner(refs, name, i)
  }

  predicate FirstOwner(refs: seq<OwnerReference>, name: string, i: nat) {
    i < |refs| && IsOwner(refs[i]) && name == refs[i].name && forall k :: 0 <= k < i ==> !IsOwner(refs[k])
  }

  method OwnerSBCName(refs: seq<OwnerReference>) returns (name: string)
    ensures name == OwnerName(refs)
    ensures NamesOwner(refs, name)
  {
    assert refs[0..] == refs;
    for i := 0 to |refs|
      invariant forall k :: 0 <= k < i ==> !IsOwner(refs[k])
      invariant OwnerName(refs) == OwnerName(refs[i..])
    {
      assert refs[i..][0] == refs[i] && refs[i..][1..] == refs[i + 1..];
      if refs[i].apiVersion == API_VERSION && refs[i].kind == KIND {
        assert FirstOwner(refs, refs[i].name, i);
        return refs[i].name;
      }
    }
    name := "";
  }

  method ResolveServer(c: Cluster, owners: seq<Ref>) returns (server: Lookup<Server>)
    ensures server == Resolve(c, owners)
  {
    assert owners[0..] == owners;
    for i := 0 to |owners|
      invariant Resolve(c, owners) == Resolve(c, owners[i..])
    {
      assert owners[i..][0] == owners[i] && owners[i..][1..] == owners[i + 1..];
      if owners[i].name == "" {
        continue;
      }
      var sbc := Get(c.configurations, owners[i]);
      if !sbc.Found? {
        if sbc.NotFound? {
          continue;
        }
        return Failed;
      }
      var found := Get(c.servers, sbc.value);
      if !found.Found? {
        if found.NotFound? {
          continue;
        }
        return Failed;
      }
      return found;
    }
    server := NotFound;
  }

  /** `valid` lists, in order, the recognised owners among the first `n`. */
  ghost predicate IsValid(s: Server, owners: seq<Ref>, valid: seq<nat>, n: nat)
    requires n <= |owners|
  {
    && (forall i: nat :: i in valid <==> i < n && Recognized(s, owners[i]))
    && (forall k, l :: 0 <= k < l < |valid| ==> valid[k] < valid[l])
    && |valid| == Count(s, owners[..n])
  }

  lemma {:induction false} CountAppend(s: Server, a: seq<Ref>, b: seq<Ref>)
    ensures Count(s, a + b) == Count(s, a) + Count(s, b)
  {
    if a == [] {
      assert a + b == b;
    } else {
      assert (a + b)[1..] == a[1..] + b;
      CountAppend(s, a[1..], b);
    }
  }

  /** The map of recognised keys. */
  method RecognizedKeys(s: Server) returns (recognized: set<string>)
    ensures forall owner :: Recognized(s, owner) <==> owner.name != "" && KeyOf(owner) in recognized
  {
    recognized := {};
    if s.bootConfigurationRef.Some? {
      recognized := recognized + {KeyOf(s.bootConfigurationRef.value)};
    }
    if s.maintenanceBootConfigurationRef.Some? {
      recognized := recognized + {KeyOf(s.maintenanceBootConfigurationRef.value)};
    }
  }

  lemma ValidStep(s: Server, owners: seq<Ref>, valid: seq<nat>, i: nat)
    requires i < |owners| && IsValid(s, owners, valid, i)
    ensures IsValid(s, owners, if Recognized(s, owners[i]) then valid + [i] else valid, i + 1)
  {
    assert Count(s, owners[..i + 1]) == Count(s, owners[..i]) + if Recognized(s, owners[i]) then 1 else 0 by {
      assert owners[..i + 1] == owners[..i] + [owners[i]];
      CountAppend(s, owners[..i], [owners[i]]);
    }
    if Recognized(s, owners[i]) {
      var longer := valid + [i];
      assert forall k: nat :: k in longer <==> k in valid || k == i;
      assert forall k :: 0 <= k < |valid| ==> valid[k] in valid;
    }
  }

  /** The filter loop of `preferredBootConfigIndex`. */
  method ValidIndices(s: Server, owners: seq<Ref>) returns (valid: seq<nat>)
    ensures IsValid(s, owners, valid, |owners|) && |valid| == Count(s, owners)
  {
    var recognized := RecognizedKeys(s);
    valid := [];
    for i := 0 to |owners|
      invariant IsValid(s, owners, valid, i)
    {
      ValidStep(s, owners, valid, i);
      if owners[i].name != "" && KeyOf(owners[i]) in recognized {
        valid := valid + [i];
      }
    }
    assert owners[..|owners|] == owners;
  }

  /** A search loop over the valid indices. */
  method FirstWithKey(s: Server, owners: seq<Ref>, valid: seq<nat>, key: string) returns (i: Option<nat>)
    requires IsValid(s, owners, valid, |owners|)
    ensures i.Some? ==> i.value < |owners| && i.value in valid && KeyOf(owners[i.value]) == key
    ensures i.Some? ==> forall k :: 0 <= k < i.value && k in valid ==> KeyOf(owners[k]) != key
    ensures i.None? ==> forall k :: k in valid ==> KeyOf(owners[k]) != key
  {
    for n := 0 to |valid|
      invariant forall k :: k in valid[..n] ==> k < |owners| && KeyOf(owners[k]) != key
    {
      assert valid[n] in valid && valid[..n + 1] == valid[..n] + [valid[n]];
      if KeyOf(owners[valid[n]]) == key {
        return Some(valid[n]);
      }
    }
    assert valid[..|valid|] == valid;
    i := None;
  }

  method PreferredBootConfigIndex(c: Cluster, owners: seq<Ref>) returns (choice: Choice)
    ensures choice == PreferredIn(c, owners)
  {
    var found := ResolveServer(c, owners);
    if !found.Found? {
      return Unresolved;
    }
    var s := found.value;
    var valid := ValidIndices(s, owners);
    if |valid| == 0 {
      return AllOrphaned;
    }
    if |valid| == 1 {
      assert valid[0] in valid && forall k: nat :: k in valid ==> k == valid[0];
      return Chosen(valid[0]);
    }
    if s.inMaintenance && s.maintenanceBootConfigurationRef.Some? {
      var i := FirstWithKey(s, owners, valid, KeyOf(s.maintenanceBootConfigurationRef.value));
      if i.Some? {
        FirstIs(o => IsMaintenance(s, o), owners, i.value);
        return Chosen(i.value);
      }
    }
    if s.bootConfigurationRef.Some? {
      var i := FirstWithKey(s, owners, valid, KeyOf(s.bootConfigurationRef.value));
      if i.Some? {
        FirstIs(o => IsWorkload(s, o), owners, i.value);
        return Chosen(i.value);
      }
    }
    choice := UnexpectedState;
  }

  lemma FirstIs(p: Ref -> bool, owners: seq<Ref>, i: nat)
    requires i < |owners| && p(owners[i]) && forall k :: 0 <= k < i ==> !p(owners[k])
    ensures First(p, owners) == Some(i)
  {
  }

  method SelectBootConfig(c: Cluster, items: seq<Item>) returns (choice: Choice)
    ensures choice == Select(c, items)
    ensures |items| == 0 ==> choice == NoItems
    ensures |items| == 1 ==> choice == Chosen(0)
  {
    if |items| == 0 {
      return NoItems;
    }
    if |items| == 1 {
      return Chosen(0);
    }
    var owners: seq<Ref> := [];
    for i := 0 to |items|
      invariant owners == Owners(items[..i])
    {
      var name := OwnerSBCName(items[i].ownerReferences);
      owners := owners + [Ref(items[i].namespace, name)];
      assert items[..i + 1] == items[..i] + [items[i]];
    }
    assert items[..|items|] == items;
    choice := PreferredBootConfigIndex(c, owners);
  }
}
