/** What the selection guarantees, and that the order of the configs does not matter. */
module SelectionProofs {
  import opened Wrappers
  import opened Selection

  // ----- The right config is served -------------------------------------------------------------------

  lemma {:induction false} CountPositive(s: Server, owners: seq<Ref>)
    ensures Count(s, owners) > 0 <==> exists i :: 0 <= i < |owners| && Recognized(s, owners[i])
  {
    if owners != [] {
      CountPositive(s, owners[1..]);
      assert forall i :: 0 <= i < |owners[1..]| ==> owners[1..][i] == owners[i + 1];
    }
  }

  lemma {:induction false} CountSeveral(s: Server, owners: seq<Ref>)
    ensures Count(s, owners) >= 2 <==>
      exists i, j :: 0 <= i < j < |owners| && Recognized(s, owners[i]) && Recognized(s, owners[j])
  {
    if owners != [] {
      var rest := owners[1..];
      CountSeveral(s, rest);
      CountPositive(s, rest);
      assert forall i :: 0 <= i < |rest| ==> rest[i] == owners[i + 1];
      if i, j :| 0 <= i < j < |owners| && Recognized(s, owners[i]) && Recognized(s, owners[j]) {
        assert Recognized(s, rest[j - 1]);
        assert i > 0 ==> Recognized(s, rest[i - 1]);
      }
    }
  }

  /** A chosen config has a recognised owner.  In maintenance a maintenance config is chosen if there is
      one, outside maintenance a workload config, wherever in the list it is. */
  lemma ChoiceCorrect(s: Server, owners: seq<Ref>)
    ensures Preferred(s, owners).Chosen? ==>
      var i := Preferred(s, owners).index;
      && i < |owners| && Recognized(s, owners[i])
      && (s.inMaintenance && (exists k :: 0 <= k < |owners| && IsMaintenance(s, owners[k])) ==>
          IsMaintenance(s, owners[i]))
      && (!s.inMaintenance && (exists k :: 0 <= k < |owners| && IsWorkload(s, owners[k])) ==> IsWorkload(s, owners[i]))
  {
    CountPositive(s, owners);
    CountSeveral(s, owners);
    if Count(s, owners) == 1 {
      var i := First(o => Recognized(s, o), owners).value;
      assert forall k :: 0 <= k < |owners| && Recognized(s, owners[k]) ==> k == i;
    }
  }

  // ----- Exactly when and which ----------------------------------------------------------------------------

  /** The reference of the server names this owner. */
  predicate Names(reference: Option<Ref>, owner: Ref) {
    && owner.name != "" && reference.Some?
    && reference.value.namespace + "/" + reference.value.name == owner.namespace + "/" + owner.name
  }

  predicate Either(s: Server, owner: Ref) {
    Names(s.bootConfigurationRef, owner) || Names(s.maintenanceBootConfigurationRef, owner)
  }

  /** Two or more owners are named, all by the maintenance reference only, outside maintenance. */
  ghost predicate OnlyMaintenance(s: Server, owners: seq<Ref>) {
    && !s.inMaintenance
    && (exists i, j :: 0 <= i < j < |owners| && Either(s, owners[i]) && Either(s, owners[j]))
    && (forall k :: 0 <= k < |owners| && Either(s, owners[k]) ==> !Names(s.bootConfigurationRef, owners[k]))
  }

  lemma NamesRecognized(s: Server, owner: Ref)
    ensures Names(s.bootConfigurationRef, owner) <==> IsWorkload(s, owner)
    ensures Names(s.maintenanceBootConfigurationRef, owner) <==> IsMaintenance(s, owner)
    ensures Either(s, owner) <==> Recognized(s, owner)
  {
  }

  /** A config is chosen if and only if the server names the owner of one, but for the case above. */
  lemma ChosenIff(s: Server, owners: seq<Ref>)
    ensures Preferred(s, owners).Chosen? <==>
      (exists i :: 0 <= i < |owners| && Either(s, owners[i])) && !OnlyMaintenance(s, owners)
  {
    forall o: Ref ensures Either(s, o) <==> Recognized(s, o) { NamesRecognized(s, o); }
    CountPositive(s, owners);
    CountSeveral(s, owners);
    UnexpectedIff(s, owners);
  }

  /** The first maintenance config in maintenance, if there is one; else the first workload config, if there
      is one; else the only config that is named at all. */
  lemma ChosenIs(s: Server, owners: seq<Ref>)
    requires Preferred(s, owners).Chosen?
    ensures var i := Preferred(s, owners).index;
      && i < |owners|
      && if s.inMaintenance && exists k :: 0 <= k < |owners| && Names(s.maintenanceBootConfigurationRef, owners[k]) then
           Names(s.maintenanceBootConfigurationRef, owners[i])
           && forall k :: 0 <= k < i ==> !Names(s.maintenanceBootConfigurationRef, owners[k])
         else if exists k :: 0 <= k < |owners| && Names(s.bootConfigurationRef, owners[k]) then
           && Names(s.bootConfigurationRef, owners[i])
           && forall k :: 0 <= k < i ==> !Names(s.bootConfigurationRef, owners[k])
         else Either(s, owners[i]) && forall k :: 0 <= k < |owners| && Either(s, owners[k]) ==> k == i
  {
    CountPositive(s, owners);
    CountSeveral(s, owners);
    if Count(s, owners) == 1 { OneNamed(s, owners); }
  }

  lemma OneNamed(s: Server, owners: seq<Ref>)
    requires Count(s, owners) == 1
    ensures Preferred(s, owners).Chosen? && Preferred(s, owners).index < |owners|
    ensures forall k :: 0 <= k < |owners| && Recognized(s, owners[k]) ==> k == Preferred(s, owners).index
    ensures Recognized(s, owners[Preferred(s, owners).index])
  {
    CountPositive(s, owners);
    CountSeveral(s, owners);
  }

  /** The owner leads nowhere: it has no name, or its configuration or that one's server does not exist. */
  predicate Gone(c: Cluster, owner: Ref) {
    || owner.name == "" || owner !in c.configurations || c.configurations[owner].NotFound?
    || (c.configurations[owner].Found? &&
        (c.configurations[owner].value !in c.servers || c.servers[c.configurations[owner].value].NotFound?))
  }

  /** The first owner that is not gone decides: it leads to its server or fails. */
  lemma {:induction false} ResolveIs(c: Cluster, owners: seq<Ref>, i: nat)
    requires i <= |owners| && forall k :: 0 <= k < i ==> Gone(c, owners[k])
    requires i < |owners| ==> !Gone(c, owners[i])
    ensures Resolve(c, owners) ==
      if i == |owners| then NotFound
      else if c.configurations[owners[i]].Failed? then Failed
      else c.servers[c.configurations[owners[i]].value]
  {
    if i > 0 { ResolveIs(c, owners[1..], i - 1); }
  }

  /** No config, or one, is not resolved at all. */
  lemma SelectFew(c: Cluster, item: Item)
    ensures Select(c, []) == NoItems && Select(c, [item]) == Chosen(0)
  {
  }

  /** Several are, and then the server has the choice. */
  lemma SelectSeveral(c: Cluster, items: seq<Item>, s: Server)
    requires |items| >= 2 && Resolve(c, Owners(items)) == Found(s)
    ensures Select(c, items) == Preferred(s, Owners(items))
    ensures |Owners(items)| == |items| && forall i :: 0 <= i < |items| ==>
      Owners(items)[i].namespace == items[i].namespace
      && NamesOwner(items[i].ownerReferences, Owners(items)[i].name)
  {
    forall i | 0 <= i < |items| ensures NamesOwner(items[i].ownerReferences, Owner(items[i]).name) {
      OwnerIs(items[i].ownerReferences);
    }
  }

  lemma {:induction false} OwnerIs(refs: seq<OwnerReference>)
    ensures NamesOwner(refs, OwnerName(refs))
  {
    if refs != [] && IsOwner(refs[0]) {
      assert FirstOwner(refs, refs[0].name, 0);
    } else if refs != [] {
      var name := OwnerName(refs[1..]);
      OwnerIs(refs[1..]);
      assert forall k :: 0 < k < |refs| ==> refs[k] == refs[1..][k - 1];
      if i :| 0 <= i < |refs| - 1 && FirstOwner(refs[1..], name, i) {
        assert FirstOwner(refs, name, i + 1);
      }
    }
  }

  // ----- The branch that should not be reachable -------------------------------------------------------

  /** The last error of `preferredBootConfigIndex` is returned exactly when two or more owners are
      recognised, all as maintenance owners only, and the server is not in maintenance. */
  lemma UnexpectedIff(s: Server, owners: seq<Ref>)
    ensures Preferred(s, owners).UnexpectedState? <==>
      && (exists i, j :: 0 <= i < j < |owners| && Recognized(s, owners[i]) && Recognized(s, owners[j]))
      && (forall k :: 0 <= k < |owners| && Recognized(s, owners[k]) ==>
          IsMaintenance(s, owners[k]) && !IsWorkload(s, owners[k]))
      && !s.inMaintenance
  {
    CountPositive(s, owners);
    CountSeveral(s, owners);
  }

  lemma KeyInjective(a: Ref, b: Ref)
    requires '/' !in a.namespace && '/' !in b.namespace && KeyOf(a) == KeyOf(b)
    ensures a == b
  {
    var k, l := KeyOf(a), KeyOf(b);
    assert k[|a.namespace|] == '/' && l[|b.namespace|] == '/';
    assert forall i :: 0 <= i < |a.namespace| ==> k[i] == a.namespace[i];
    assert forall i :: 0 <= i < |b.namespace| ==> l[i] == b.namespace[i];
    assert |a.namespace| == |b.namespace|;
    assert a.namespace == k[..|a.namespace|] && b.namespace == l[..|b.namespace|];
    assert a.name == k[|a.namespace| + 1..] && b.name == l[|b.namespace| + 1..];
  }

  /** With pairwise distinct owners, in namespaces without a slash, it is unreachable as the comment says. */
  lemma UnreachableForDistinctOwners(s: Server, owners: seq<Ref>)
    requires forall i :: 0 <= i < |owners| ==> '/' !in owners[i].namespace
    requires forall i, j :: 0 <= i < j < |owners| ==> owners[i] != owners[j]
    ensures !Preferred(s, owners).UnexpectedState?
  {
    UnexpectedIff(s, owners);
    if Preferred(s, owners).UnexpectedState? {
      var i, j :| 0 <= i < j < |owners| && Recognized(s, owners[i]) && Recognized(s, owners[j]);
      KeyInjective(owners[i], owners[j]);
    }
  }

  /** Two configs of the maintenance configuration, and a server that is not in maintenance. */
  function SharedOwner(): (Cluster, seq<Item>) {
    var owner := Ref("default", "maintenance");
    var item := Item("default", [OwnerReference(API_VERSION, KIND, "maintenance")]);
    (Cluster(map[owner := Found("server")], map["server" := Found(Server(None, Some(owner), false))]), [item, item])
  }

  /** They reach it. */
  lemma ReachableForSharedOwner()
    ensures var (cluster, items) := SharedOwner(); Select(cluster, items) == UnexpectedState
  {
    var (cluster, items) := SharedOwner();
    var owner := Ref("default", "maintenance");
    var s := Server(None, Some(owner), false);
    assert Owners(items) == [owner, owner];
    assert ServerOf(cluster, owner) == Found(s);
    assert Resolve(cluster, [owner, owner]) == Found(s);
    SharedCount(s, owner);
  }

  lemma SharedCount(s: Server, owner: Ref)
    requires s == Server(None, Some(owner), false) && owner.name != ""
    ensures Preferred(s, [owner, owner]) == UnexpectedState
  {
    assert [owner, owner][1..] == [owner] && [owner][1..] == [];
    assert Count(s, [owner]) == 1;
    assert Count(s, [owner, owner]) == 2;
  }

  // ----- The order of the configs does not matter --------------------------------------------------------

  /** Lookups fail only with NotFound, and all owners that lead to a server lead to the same one. */
  ghost predicate OneServer(c: Cluster, owners: seq<Ref>) {
    && (forall o :: o in owners ==> !ServerOf(c, o).Failed?)
    && (forall o, p :: o in owners && p in owners && ServerOf(c, o).Found? && ServerOf(c, p).Found? ==>
          ServerOf(c, o) == ServerOf(c, p))
  }

  lemma {:induction false} ResolveAny(c: Cluster, owners: seq<Ref>, o: Ref)
    requires OneServer(c, owners) && o in owners && ServerOf(c, o).Found?
    ensures Resolve(c, owners) == ServerOf(c, o)
  {
    if ServerOf(c, owners[0]).NotFound? {
      assert owners == [owners[0]] + owners[1..];
      ResolveAny(c, owners[1..], o);
    }
  }

  lemma {:induction false} ResolveNone(c: Cluster, owners: seq<Ref>)
    requires forall o :: o in owners ==> ServerOf(c, o).NotFound?
    ensures Resolve(c, owners).NotFound?
  {
    if owners != [] { ResolveNone(c, owners[1..]); }
  }

  lemma ResolvePermuted(c: Cluster, a: seq<Ref>, b: seq<Ref>)
    requires OneServer(c, a) && multiset(a) == multiset(b)
    ensures Resolve(c, a) == Resolve(c, b)
  {
    forall o ensures o in a <==> o in b {
      assert o in a <==> o in multiset(a);
    }
    if o :| o in a && ServerOf(c, o).Found? {
      ResolveAny(c, a, o);
      ResolveAny(c, b, o);
    } else {
      ResolveNone(c, a);
      ResolveNone(c, b);
    }
  }

  function Without<T>(a: seq<T>, i: nat): seq<T>
    requires i < |a|
  {
    a[..i] + a[i + 1..]
  }

  lemma MultisetWithout<T>(b: seq<T>, i: nat)
    requires i < |b|
    ensures multiset(Without(b, i)) == multiset(b) - multiset{b[i]}
  {
    assert b == b[..i] + ([b[i]] + b[i + 1..]);
    assert multiset(b) == multiset(b[..i]) + (multiset{b[i]} + multiset(b[i + 1..]));
  }

  /** Wherever the first element of a sequence ends up in a permutation, the others permute the rest. */
  lemma PositionIn<T>(a: seq<T>, b: seq<T>) returns (i: nat)
    requires multiset(a) == multiset(b) && a != []
    ensures i < |b| && b[i] == a[0] && multiset(a[1..]) == multiset(Without(b, i))
  {
    assert a[0] in multiset(b);
    i :| 0 <= i < |b| && b[i] == a[0];
    MultisetWithout(b, i);
    MultisetWithout(a, 0);
    assert Without(a, 0) == a[1..];
  }

  lemma PermutedNil<T>(a: seq<T>, b: seq<T>)
    requires multiset(a) == multiset(b) && a == []
    ensures b == []
  {
    assert |multiset(a)| == |multiset(b)|;
  }

  lemma CountWithout(s: Server, owners: seq<Ref>, i: nat)
    requires i < |owners|
    ensures Count(s, owners) == Count(s, Without(owners, i)) + if Recognized(s, owners[i]) then 1 else 0
  {
    assert owners == owners[..i] + owners[i..];
    CountAppend(s, owners[..i], owners[i..]);
    CountAppend(s, owners[..i], owners[i + 1..]);
  }

  lemma {:induction false} CountPermuted(s: Server, a: seq<Ref>, b: seq<Ref>)
    requires multiset(a) == multiset(b)
    ensures Count(s, a) == Count(s, b)
  {
    if a == [] {
      PermutedNil(a, b);
    } else {
      var i := PositionIn(a, b);
      CountPermuted(s, a[1..], Without(b, i));
      CountWithout(s, b, i);
    }
  }

  lemma OwnersWithout(items: seq<Item>, i: nat)
    requires i < |items|
    ensures multiset(Owners(items)) == multiset(Owners(Without(items, i))) + multiset{Owner(items[i])}
  {
    var front, back := Owners(items[..i]), Owners(items[i + 1..]);
    assert Owners(items) == front + ([Owner(items[i])] + back);
    assert Owners(Without(items, i)) == front + back;
  }

  lemma {:induction false} OwnersPermuted(x: seq<Item>, y: seq<Item>)
    requires multiset(x) == multiset(y)
    ensures multiset(Owners(x)) == multiset(Owners(y))
  {
    if x == [] {
      PermutedNil(x, y);
    } else {
      var i := PositionIn(x, y);
      OwnersPermuted(x[1..], Without(y, i));
      OwnersWithout(y, i);
      OwnersWithout(x, 0);
      assert Without(x, 0) == x[1..];
    }
  }

  ghost predicate SameChoice(a: seq<Ref>, x: Choice, b: seq<Ref>, y: Choice) {
    if x.Chosen? then
      x.index < |a| && y.Chosen? && y.index < |b| && KeyOf(a[x.index]) == KeyOf(b[y.index])
    else x == y
  }

  lemma FirstPermuted(p: Ref -> bool, a: seq<Ref>, b: seq<Ref>)
    requires multiset(a) == multiset(b)
    ensures First(p, a).Some? <==> First(p, b).Some?
  {
    if First(p, a).Some? { assert a[First(p, a).value] in multiset(b); }
    if First(p, b).Some? { assert b[First(p, b).value] in multiset(a); }
  }

  lemma OnlyRecognized(s: Server, owners: seq<Ref>, i: nat, j: nat)
    requires Count(s, owners) == 1 && i < |owners| && j < |owners|
    requires Recognized(s, owners[i]) && Recognized(s, owners[j])
    ensures i == j
  {
    CountSeveral(s, owners);
  }

  lemma OnePermuted(s: Server, a: seq<Ref>, b: seq<Ref>)
    requires multiset(a) == multiset(b) && Count(s, a) == 1
    ensures SameChoice(a, Preferred(s, a), b, Preferred(s, b))
  {
    CountPermuted(s, a, b);
    CountPositive(s, a);
    FirstPermuted(o => Recognized(s, o), a, b);
    var i, j := First(o => Recognized(s, o), a).value, First(o => Recognized(s, o), b).value;
    assert a[i] in multiset(b);
    var k :| 0 <= k < |b| && b[k] == a[i];
    OnlyRecognized(s, b, j, k);
  }

  lemma PreferredPermuted(s: Server, a: seq<Ref>, b: seq<Ref>)
    requires multiset(a) == multiset(b)
    ensures SameChoice(a, Preferred(s, a), b, Preferred(s, b))
  {
    CountPermuted(s, a, b);
    if Count(s, a) == 1 {
      OnePermuted(s, a, b);
    } else {
      FirstPermuted(o => IsWorkload(s, o), a, b);
      FirstPermuted(o => IsMaintenance(s, o), a, b);
    }
  }

  /** Permuting two or more configs changes neither whether one is selected, nor the key of its owner,
      nor which error is returned. */
  lemma OrderIrrelevant(c: Cluster, x: seq<Item>, y: seq<Item>)
    requires multiset(x) == multiset(y) && |x| >= 2 && OneServer(c, Owners(x))
    ensures SameChoice(Owners(x), Select(c, x), Owners(y), Select(c, y))
  {
    assert |x| == |multiset(x)| == |multiset(y)| == |y|;
    OwnersPermuted(x, y);
    ResolvePermuted(c, Owners(x), Owners(y));
    var r := Resolve(c, Owners(x));
    if r.Found? { PreferredPermuted(r.value, Owners(x), Owners(y)); }
  }

  // ----- Exactly when the order does matter ------------------------------------------------------------------

  /** Both succeed, with configs of the same owner, or both fail. */
  ghost predicate SameOutcome(a: seq<Ref>, x: Choice, b: seq<Ref>, y: Choice) {
    SameChoice(a, x, b, y) || (!x.Chosen? && !y.Chosen?)
  }

  /** Some permutation of the configs changes the outcome. */
  ghost predicate OrderMatters(c: Cluster, x: seq<Item>) {
    exists y :: multiset(x) == multiset(y) && !SameOutcome(Owners(x), Select(c, x), Owners(y), Select(c, y))
  }

  /** All owners that lead to a server lead to this one. */
  ghost predicate LeadTo(c: Cluster, owners: seq<Ref>, s: Server) {
    forall o :: o in owners && ServerOf(c, o).Found? ==> ServerOf(c, o) == Found(s)
  }

  lemma {:induction false} ResolveLeads(c: Cluster, owners: seq<Ref>, s: Server)
    requires LeadTo(c, owners, s)
    ensures Resolve(c, owners).Found? ==>
      Resolve(c, owners) == Found(s) && exists o :: o in owners && ServerOf(c, o).Found?
    ensures Resolve(c, owners).Failed? ==> exists o :: o in owners && ServerOf(c, o).Failed?
    ensures Resolve(c, owners).NotFound? ==> forall o :: o in owners ==> ServerOf(c, o).NotFound?
  {
    if owners != [] {
      var rest := owners[1..];
      assert owners == [owners[0]] + rest;
      ResolveLeads(c, rest, s);
      assert forall o :: o in rest ==> o in owners;
      assert owners[0] in owners;
    }
  }

  lemma InPermutation(a: seq<Ref>, b: seq<Ref>)
    requires multiset(a) == multiset(b)
    ensures forall o :: o in a <==> o in b
  {
    forall o ensures o in a <==> o in b {
      assert o in a <==> o in multiset(a);
    }
  }

  /** What a permutation is served: the choice of the server if it is resolved, an error otherwise. */
  lemma SelectPermuted(c: Cluster, x: seq<Item>, y: seq<Item>, s: Server)
    requires multiset(x) == multiset(y) && |x| >= 2 && LeadTo(c, Owners(x), s)
    ensures Select(c, y).Chosen? ==> Preferred(s, Owners(x)).Chosen? && Resolve(c, Owners(y)) == Found(s)
    ensures Resolve(c, Owners(y)) == Found(s) ==>
      SameChoice(Owners(x), Preferred(s, Owners(x)), Owners(y), Select(c, y))
  {
    assert |x| == |multiset(x)| == |multiset(y)| == |y|;
    OwnersPermuted(x, y);
    InPermutation(Owners(x), Owners(y));
    ResolveLeads(c, Owners(y), s);
    PreferredPermuted(s, Owners(x), Owners(y));
  }

  /** Any config can come first. */
  lemma PutFirst(x: seq<Item>, o: Ref) returns (y: seq<Item>)
    requires o in Owners(x)
    ensures multiset(x) == multiset(y) && |y| == |x| && Owners(y)[0] == o
  {
    var i :| 0 <= i < |x| && Owners(x)[i] == o;
    y := [x[i]] + Without(x, i);
    MultisetWithout(x, i);
    assert multiset(y) == multiset{x[i]} + multiset(Without(x, i));
  }

  lemma FoundFirst(c: Cluster, y: seq<Item>)
    requires |y| >= 2 && !ServerOf(c, Owners(y)[0]).NotFound?
    ensures Resolve(c, Owners(y)) == ServerOf(c, Owners(y)[0])
    ensures ServerOf(c, Owners(y)[0]).Failed? ==> Select(c, y) == Unresolved
  {
  }

  /** If all owners that lead to a server lead to the same one, the order changes the outcome exactly if one
      of them leads there, another lookup fails with an error that is not NotFound, and the server would have
      a config chosen. */
  lemma OrderMattersIff(c: Cluster, x: seq<Item>, s: Server)
    requires |x| >= 2 && LeadTo(c, Owners(x), s)
    ensures OrderMatters(c, x) <==>
      && (exists o :: o in Owners(x) && ServerOf(c, o).Failed?)
      && (exists o :: o in Owners(x) && ServerOf(c, o).Found?)
      && Preferred(s, Owners(x)).Chosen?
  {
    if y :| multiset(x) == multiset(y) && !SameOutcome(Owners(x), Select(c, x), Owners(y), Select(c, y)) {
      OnlyIfFails(c, x, y, s);
    }
    if Preferred(s, Owners(x)).Chosen? {
      if f, g :| f in Owners(x) && ServerOf(c, f).Failed? && g in Owners(x) && ServerOf(c, g).Found? {
        ChangesOutcome(c, x, s, f, g);
      }
    }
  }

  lemma OnlyIfFails(c: Cluster, x: seq<Item>, y: seq<Item>, s: Server)
    requires |x| >= 2 && LeadTo(c, Owners(x), s)
    requires multiset(x) == multiset(y) && !SameOutcome(Owners(x), Select(c, x), Owners(y), Select(c, y))
    ensures exists o :: o in Owners(x) && ServerOf(c, o).Failed?
    ensures exists o :: o in Owners(x) && ServerOf(c, o).Found?
    ensures Preferred(s, Owners(x)).Chosen?
  {
    SelectPermuted(c, x, x, s);
    SelectPermuted(c, x, y, s);
    OwnersPermuted(x, y);
    InPermutation(Owners(x), Owners(y));
    ResolveLeads(c, Owners(x), s);
    ResolveLeads(c, Owners(y), s);
  }

  lemma ChangesOutcome(c: Cluster, x: seq<Item>, s: Server, f: Ref, g: Ref)
    requires |x| >= 2 && LeadTo(c, Owners(x), s) && Preferred(s, Owners(x)).Chosen?
    requires f in Owners(x) && ServerOf(c, f).Failed? && g in Owners(x) && ServerOf(c, g).Found?
    ensures OrderMatters(c, x)
  {
    if Select(c, x).Chosen? {
      var y := PutFirst(x, f);
      FoundFirst(c, y);
      assert !SameOutcome(Owners(x), Select(c, x), Owners(y), Select(c, y));
    } else {
      var y := PutFirst(x, g);
      FoundFirst(c, y);
      SelectPermuted(c, x, y, s);
      assert !SameOutcome(Owners(x), Select(c, x), Owners(y), Select(c, y));
    }
  }
}
