/** internal/registry/validation.go: the comma-separated list of allowed registries. */
module AllowList {
  import opened Wrappers
  import opened Sequences
  import opened Text
  import opened Reference
  import opened ReferenceProofs
  import ReferenceRoundTrip

  const DEFAULT_ALLOWED_REGISTRY := "ghcr.io"

  const INDEX := "index.docker.io"

  /** `normalizeDockerHubDomain` */
  function Normalize(domain: string): string {
    var lower := ToLower(domain);
    if lower == DOCKER_IO || lower == INDEX || lower == DEFAULT_REGISTRY then DOCKER_IO else lower
  }

  /** What the list says: the normalised registries it names. */
  function Normalized(items: seq<string>): (names: seq<string>)
    ensures |names| == |items|
    ensures forall i :: 0 <= i < |items| ==> names[i] == ItemName(items[i])
  {
    Map(ItemName, items)
  }

  function ItemName(item: string): string {
    Normalize(TrimSpace(item))
  }

  function Listed(list: string): seq<string> {
    Normalized(Split(list, ','))
  }

  predicate InList(registry: string, list: string) {
    list != "" && Normalize(registry) in Listed(list)
  }

  /** `isInList` */
  method IsInList(registry: string, list: string) returns (found: bool)
    ensures found == InList(registry, list)
  {
    if list == "" { return false; }
    found := HasItem(Split(list, ','), Normalize(registry));
  }

  method HasItem(items: seq<string>, normalizedRegistry: string) returns (found: bool)
    ensures found == (normalizedRegistry in Normalized(items))
  {
    for i := 0 to |items|
      invariant NoneBefore(items, i, normalizedRegistry)
    {
      var normalizedItem := ItemName(items[i]);
      if normalizedItem == normalizedRegistry {
        ItemListed(items, i);
        return true;
      }
    }
    NothingListed(items, normalizedRegistry);
    return false;
  }

  ghost predicate NoneBefore(items: seq<string>, n: nat, target: string)
    requires n <= |items|
  {
    forall i :: 0 <= i < n ==> ItemName(items[i]) != target
  }

  lemma ItemListed(items: seq<string>, i: nat)
    requires i < |items|
    ensures ItemName(items[i]) in Normalized(items)
  {
    assert Normalized(items)[i] == ItemName(items[i]);
  }

  lemma NothingListed(items: seq<string>, target: string)
    requires NoneBefore(items, |items|, target)
    ensures target !in Normalized(items)
  {
    assert forall i :: 0 <= i < |items| ==> Normalized(items)[i] == ItemName(items[i]);
  }

  /** `IsRegistryAllowed` */
  predicate Allowed(list: string, registry: string) {
    if list != "" then InList(registry, list) else Normalize(registry) == DEFAULT_ALLOWED_REGISTRY
  }

  datatype Verdict = InvalidReference | NotAllowed | Valid

  /** `ValidateImageRegistry` */
  function Validate(list: string, imageRef: string): Verdict {
    var registry := ExtractRegistryDomain(imageRef);
    if registry.None? then InvalidReference
    else if !Allowed(list, registry.value) then NotAllowed
    else Valid
  }

  // ----- The list as a set ---------------------------------------------------------------------------------

  lemma NormalizedConcat(a: seq<string>, b: seq<string>)
    ensures Normalized(a + b) == Normalized(a) + Normalized(b)
  {
    MapConcat(ItemName, a, b);
  }

  lemma EmptyListed()
    ensures Listed("") == [""]
  {
    assert Split("", ',') == [""];
  }

  /** The list `a,b` accepts what `a` accepts and what `b` accepts; an empty half adds one item, the
      empty registry. */
  lemma UnionOfLists(registry: string, a: string, b: string)
    ensures InList(registry, a + "," + b) <==>
      InList(registry, a) || InList(registry, b) || (registry == "" && (a == "" || b == ""))
  {
    SplitConcat(a, ',', b);
    NormalizedConcat(Split(a, ','), Split(b, ','));
    EmptyListed();
  }

  /** The list of given items accepts exactly the registries equal to one of them up to case, spaces and
      Docker Hub aliases. */
  lemma AcceptsItems(registry: string, items: seq<string>)
    requires items != [] && Join(items, ',') != "" && forall item :: item in items ==> ',' !in item
    ensures InList(registry, Join(items, ',')) <==>
      exists item :: item in items && ItemName(item) == Normalize(registry)
  {
    SplitJoin(items, ',');
    if InList(registry, Join(items, ',')) {
      var i :| 0 <= i < |items| && Normalized(items)[i] == Normalize(registry);
      assert items[i] in items;
    }
  }

  /** One of the names of Docker Hub. */
  predicate IsHub(registry: string) {
    ToLower(registry) in {"docker.io", "index.docker.io", "registry-1.docker.io"}
  }

  predicate SameRegistry(a: string, b: string) {
    ToLower(a) == ToLower(b) || (IsHub(a) && IsHub(b))
  }

  lemma SameIsNormal(a: string, b: string)
    ensures SameRegistry(a, b) <==> Normalize(a) == Normalize(b)
  {
  }

  /** Without a list only ghcr.io is allowed. */
  lemma DefaultAllows(registry: string)
    ensures Allowed("", registry) <==> ToLower(registry) == "ghcr.io"
  {
    assert DOCKER_IO[0] != DEFAULT_ALLOWED_REGISTRY[0];
  }

  /** With one, exactly the registries that are the same as an item. */
  lemma ListAllows(registry: string, items: seq<string>)
    requires items != [] && Join(items, ',') != "" && forall item :: item in items ==> ',' !in item
    ensures Allowed(Join(items, ','), registry) <==>
      exists item :: item in items && SameRegistry(TrimSpace(item), registry)
  {
    AcceptsItems(registry, items);
    forall item | item in items
      ensures SameRegistry(TrimSpace(item), registry) <==> ItemName(item) == Normalize(registry)
    {
      SameIsNormal(TrimSpace(item), registry);
    }
  }

  /** An image is valid exactly if its reference is and its registry is allowed. */
  lemma ValidIff(list: string, image: string)
    ensures Validate(list, image).Valid? <==>
      exists registry :: ExtractRegistryDomain(image) == Some(registry) && Allowed(list, registry)
  {
  }

  /** Order and repetition of the items do not matter. */
  lemma OrderIrrelevant(registry: string, items: seq<string>, others: seq<string>)
    requires items != [] && Join(items, ',') != "" && forall item :: item in items ==> ',' !in item
    requires others != [] && Join(others, ',') != ""
    requires forall item :: item in items <==> item in others
    ensures Allowed(Join(items, ','), registry) == Allowed(Join(others, ','), registry)
  {
    AcceptsItems(registry, items);
    AcceptsItems(registry, others);
  }

  // ----- Normalisation ----------------------------------------------------------------------------------------

  lemma LowerTwice(s: string)
    ensures ToLower(ToLower(s)) == ToLower(s)
  {
  }

  lemma DockerLower()
    ensures ToLower(DOCKER_IO) == DOCKER_IO
  {
    assert forall i :: 0 <= i < |DOCKER_IO| ==> !IsUpper(DOCKER_IO[i]);
    LowerFixed(DOCKER_IO);
  }

  lemma NormalizeIdempotent(domain: string)
    ensures Normalize(Normalize(domain)) == Normalize(domain)
  {
    LowerTwice(domain);
    DockerLower();
  }

  /** Two names mean the same registry if and only if they agree up to case or both name Docker Hub. */
  lemma SameRegistryIff(a: string, b: string)
    ensures Normalize(a) == Normalize(b) <==>
      ToLower(a) == ToLower(b) || (Normalize(a) == DOCKER_IO && Normalize(b) == DOCKER_IO)
  {
  }

  /** The verdict is the same for registries that differ in case or in the Docker Hub alias. */
  lemma VerdictRespectsAliases(list: string, a: string, b: string)
    requires ToLower(a) == ToLower(b)
          || (ToLower(a) in {DOCKER_IO, INDEX, DEFAULT_REGISTRY} && ToLower(b) in {DOCKER_IO, INDEX, DEFAULT_REGISTRY})
    ensures Allowed(list, a) == Allowed(list, b)
  {
    SameRegistryIff(a, b);
  }

  predicate Blank(s: string) { forall i :: 0 <= i < |s| ==> IsSpace(s[i]) }

  lemma {:induction false} TrimLeftPad(left: string, s: string)
    requires Blank(left)
    ensures TrimLeft(left + s) == TrimLeft(s)
  {
    if left == "" {
      assert left + s == s;
    } else {
      assert (left + s)[1..] == left[1..] + s;
      TrimLeftPad(left[1..], s);
    }
  }

  lemma {:induction false} TrimRightPad(s: string, right: string)
    requires Blank(right)
    ensures TrimRight(s + right) == TrimRight(s)
  {
    if right == "" {
      assert s + right == s;
    } else {
      assert (s + right)[..|s + right| - 1] == s + right[..|right| - 1];
      TrimRightPad(s, right[..|right| - 1]);
    }
  }

  lemma {:induction false} TrimLeftAppend(s: string, right: string)
    ensures TrimLeft(s + right) == if Blank(s) then TrimLeft(right) else TrimLeft(s) + right
  {
    if s == "" {
      assert s + right == right;
    } else if IsSpace(s[0]) {
      assert (s + right)[1..] == s[1..] + right;
      assert Blank(s) <==> Blank(s[1..]) by { assert forall i :: 1 <= i < |s| ==> s[i] == s[1..][i - 1]; }
      TrimLeftAppend(s[1..], right);
    }
  }

  lemma {:induction false} TrimLeftBlank(s: string)
    requires Blank(s)
    ensures TrimLeft(s) == ""
  {
    if s != "" { TrimLeftBlank(s[1..]); }
  }

  /** Spaces around an item do not matter. */
  lemma SpacesIrrelevant(left: string, item: string, right: string)
    requires Blank(left) && Blank(right)
    ensures TrimSpace(left + item + right) == TrimSpace(item)
  {
    assert left + item + right == left + (item + right);
    TrimLeftPad(left, item + right);
    TrimLeftAppend(item, right);
    if Blank(item) {
      TrimLeftBlank(right);
      TrimLeftBlank(item);
    } else {
      TrimRightPad(TrimLeft(item), right);
    }
  }

  // ----- The controllers and the proxy ---------------------------------------------------------------------------

  /** The proxy's decision on the bare image name in a request. */
  predicate ProxyAllows(list: string, imageName: string) {
    var registry := ExtractRegistryDomain(imageName);
    registry.Some? && Allowed(list, registry.value)
  }

  /** The proxy serves the images the controllers have validated, and no others, whatever the list; the
      exceptions are 64-digit hexadecimal names, which it refuses, and sha384 versions, which the
      controllers refuse. */
  lemma ControllerAndProxyAgree(list: string, image: string)
    requires ParseImageReference(image).Some?
    ensures var Image(name, version) := ParseImageReference(image).value;
      var accepted := Validate(list, BuildImageReference(name, version)).Valid?;
      && (accepted ==> (ProxyAllows(list, name) <==> !IsIdentifier(name)))
      && (ProxyAllows(list, name) ==> (accepted <==> !HasPrefix(version, "sha384:")))
  {
    ReferenceRoundTrip.SameRegistryIff(image);
  }
}
