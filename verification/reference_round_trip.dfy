/**
 The controllers split an image reference into name and version, and later print the two again.
 When is the printed reference accepted, when does it say the same, and does the image proxy, which
 only sees the name, extract the same registry from it?
 */
module ReferenceRoundTrip {
  import opened Wrappers
  import opened Text
  import opened Reference
  import opened ReferenceProofs

  // ----- Versions -----------------------------------------------------------------------------------------

  predicate IsVersion(version: string) {
    IsTag(version) || IsDigest(version)
  }

  lemma LatestIsTag()
    ensures IsTag("latest")
  {
  }

  lemma TagDigest(version: string)
    requires IsDigest(version)
    ensures ':' in version && !IsTag(version) && version != ""
  {
    DigestHead(version);
  }

  lemma TagPrefixes(tag: string)
    requires ':' !in tag
    ensures !HasPrefix(tag, "sha256:") && !HasPrefix(tag, "sha384:") && !HasPrefix(tag, "sha512:")
  {
    assert "sha256:"[6] == ':';
    assert "sha384:"[6] == ':';
    assert "sha512:"[6] == ':';
  }

  lemma PrefixTake(s: string, prefix: string)
    requires |prefix| <= |s|
    ensures HasPrefix(s, prefix) <==> s[..|prefix|] == prefix
  {
  }

  lemma DigestPrefixes(digest: string)
    requires IsDigest(digest)
    ensures HasPrefix(digest, "sha256:") || HasPrefix(digest, "sha512:") <==> !HasPrefix(digest, "sha384:")
  {
    PrefixTake(digest, "sha256:");
    PrefixTake(digest, "sha384:");
    PrefixTake(digest, "sha512:");
    assert "sha256:"[3] == '2' && "sha384:"[3] == '3' && "sha512:"[3] == '5';
  }

  lemma ParsedVersion(image: string)
    requires ParseImageReference(image).Some?
    ensures IsVersion(ParseImageReference(image).value.version)
  {
    LatestIsTag();
  }

  // ----- Printing a name and a version ------------------------------------------------------------------------

  lemma NotIdentifier(s: string, c: char)
    requires c in s && (c == ':' || c == '@')
    ensures !IsIdentifier(s)
  {
  }

  lemma BuildTagged(name: string, tag: string)
    requires IsTag(tag)
    ensures BuildImageReference(name, tag) == WithDigest(WithTag(name, tag), "")
    ensures !IsIdentifier(BuildImageReference(name, tag))
  {
    TagFree(tag);
    TagPrefixes(tag);
    NotIdentifier(name + ":" + tag, ':');
  }

  lemma BuildDigested(name: string, digest: string)
    requires IsDigest(digest) && !HasPrefix(digest, "sha384:")
    ensures BuildImageReference(name, digest) == WithDigest(WithTag(name, ""), digest)
    ensures !IsIdentifier(BuildImageReference(name, digest))
  {
    TagDigest(digest);
    DigestPrefixes(digest);
    NotIdentifier(name + "@" + digest, '@');
  }

  lemma ColonName(domain: string, path: string, rest: string)
    requires '/' !in domain && ':' in rest && '/' !in rest
    ensures ParseName(domain + "/" + (path + rest)).None?
  {
    var s := domain + "/" + (path + rest);
    CutAt(domain, '/', path + rest);
    if IsPath(path + rest) { PathFree(path + rest); }
  }

  lemma TwoColons(name: string, head: string, tail: string)
    requires '@' !in name && '@' !in head && '@' !in tail && ':' !in tail && '/' !in tail
    ensures PartsOf(name + ":" + head + ":" + tail).name == name + ":" + head
  {
    Tagged(name + ":" + head, tail);
    CutDigest(name + ":" + head + ":" + tail, "");
  }

  lemma HexFree(s: string)
    requires IsLowerHex(s)
    ensures '@' !in s && ':' !in s && '/' !in s
  {
  }

  lemma DigestParts(digest: string)
    requires IsDigest(digest)
    ensures digest == digest[..6] + ":" + digest[7..]
    ensures '@' !in digest[..6] && '/' !in digest[..6]
    ensures '@' !in digest[7..] && ':' !in digest[7..] && '/' !in digest[7..]
  {
    DigestHead(digest);
    DigestFree(digest);
    HexFree(digest[7..]);
  }

  lemma ParseTwoColons(left: string, head: string, tail: string)
    requires '@' !in left && '@' !in head && '@' !in tail && ':' !in tail && '/' !in tail
    requires ParseName(left + ":" + head).None?
    ensures Parse(left + ":" + head + ":" + tail).None?
  {
    TwoColons(left, head, tail);
  }

  lemma Regroup4(a: string, b: string, c: string, d: string)
    ensures a + (":" + c + ":" + d) == a + ":" + c + ":" + d
    ensures a + "/" + (b + (":" + c)) == a + "/" + b + ":" + c
    ensures a + "/" + (b + (":" + c + ":" + d)) == a + "/" + b + ":" + c + ":" + d
  {
  }

  lemma BuildSha384(name: string, digest: string)
    requires IsDigest(digest) && HasPrefix(digest, "sha384:")
    ensures BuildImageReference(name, digest) == name + ":" + digest[..6] + ":" + digest[7..]
  {
    DigestPrefixes(digest);
    DigestParts(digest);
    assert name + ":" + (digest[..6] + ":" + digest[7..]) == name + ":" + digest[..6] + ":" + digest[7..];
  }

  /** A sha384 digest is printed after a colon, where no digest may stand. */
  lemma BuildRejected(name: string, n: Name, digest: string)
    requires NormalizesTo(name, n) && IsDigest(digest) && HasPrefix(digest, "sha384:")
    ensures ParseNormalized(BuildImageReference(name, digest)).None?
  {
    var split := SplitDomain(name);
    var head, tail := digest[..6], digest[7..];
    BuildSha384(name, digest);
    DigestParts(digest);
    SplitShape(name);
    ParseNameFree(split.domain + "/" + split.path);
    Regroup4(name, "", head, tail);
    Regroup4(split.domain, split.path, head, tail);
    NoSlash(head, tail);
    ColonName(split.domain, split.path, ":" + head);
    ParseTwoColons(split.domain + "/" + split.path, head, tail);
    RejectedSuffix(name, ":" + head + ":" + tail);
  }

  lemma RejectedSuffix(name: string, suffix: string)
    requires '/' !in suffix
    requires Parse(SplitDomain(name).domain + "/" + (SplitDomain(name).path + suffix)).None?
    ensures ParseNormalized(name + suffix).None?
  {
    SplitSuffix(name, suffix);
  }

  lemma NoSlash(head: string, tail: string)
    requires '/' !in head && '/' !in tail
    ensures '/' !in ":" + head + ":" + tail && '/' !in ":" + head && ':' in ":" + head
  {
    assert (":" + head)[0] == ':';
  }

  function NamedAs(n: Name, version: string): Named {
    if IsTag(version) then Named(n.domain, n.path, version, "") else Named(n.domain, n.path, "", version)
  }

  /** Parsing a printed name and version gives back the version, and the name up to normalisation,
      unless the version is a sha384 digest. */
  lemma Reparse(name: string, n: Name, version: string)
    requires NormalizesTo(name, n) && IsVersion(version)
    ensures ParseNormalized(BuildImageReference(name, version)) ==
      if HasPrefix(version, "sha384:") then None else Some(NamedAs(n, version))
  {
    if IsTag(version) {
      TagFree(version);
      TagPrefixes(version);
      BuildTagged(name, version);
      ParseNormalizedPrint(name, n, version, "");
    } else if HasPrefix(version, "sha384:") {
      BuildRejected(name, n, version);
    } else {
      BuildDigested(name, version);
      ParseNormalizedPrint(name, n, "", version);
    }
  }

  lemma BareName(name: string, n: Name)
    requires NormalizesTo(name, n)
    ensures ParseNormalized(name) == if IsIdentifier(name) then None else Some(Named(n.domain, n.path, "", ""))
  {
    ParseNormalizedPrint(name, n, "", "");
  }

  // ----- The theorems -------------------------------------------------------------------------------------

  lemma ComponentIsPath(name: string)
    requires IsComponent(name)
    ensures IsPath(name) && '/' !in name
  {
    ComponentChars(name);
  }

  lemma ForeignIsName(registry: string, path: string)
    requires IsDomain(registry) && '/' !in registry && IsPath(path) && |path| <= 255
    ensures IsName(registry + "/" + path, Name(registry, path))
  {
    CutAt(registry, '/', path);
    FirstBranch(registry + "/" + path, registry, path);
  }

  lemma FirstBranch(s: string, registry: string, path: string)
    requires Cut(s, '/') == Pieces(registry, path, true) && IsDomain(registry) && IsPath(path)
    ensures ParseName(s) == Some(Name(registry, path))
  {
  }

  lemma ForeignName(registry: string, path: string)
    requires IsDomain(registry) && IsSpecial(registry) && registry != DOCKER_IO && registry != "index.docker.io"
    requires IsPath(path) && |path| <= 255
    ensures NormalizesTo(registry + "/" + path, Name(registry, path))
    ensures FamiliarName(Name(registry, path)) == registry + "/" + path
  {
    DomainChars(registry);
    NoSlashIn(registry);
    ForeignIsName(registry, path);
    FamiliarForeign(registry, path, Name(registry, path));
  }

  lemma NoSlashIn(registry: string)
    requires All(IsDomainChar, registry)
    ensures '/' !in registry
  {
  }

  /** A name with an optional tag and an optional digest, "" for none. */
  function Printed(name: string, tag: string, digest: string): string {
    name + (if tag == "" then "" else ":" + tag) + (if digest == "" then "" else "@" + digest)
  }

  /** The tag is the version; without one the digest is; without either it is `latest`. */
  function VersionOf(tag: string, digest: string): string {
    if tag == "" && digest == "" then "latest" else if tag == "" then digest else tag
  }

  lemma PrintedIs(name: string, tag: string, digest: string)
    ensures Printed(name, tag, digest) == WithDigest(WithTag(name, tag), digest)
  {
    assert name + "" == name;
    assert WithTag(name, tag) + "" == WithTag(name, tag);
  }

  lemma NameSays(name: string, n: Name, tag: string, digest: string)
    requires NormalizesTo(name, n) && IsSuffix(tag, digest) && !IsIdentifier(Printed(name, tag, digest))
    ensures ParseImageReference(Printed(name, tag, digest))
         == Some(Image(FamiliarName(n), VersionOf(tag, digest)))
    ensures ExtractRegistryDomain(Printed(name, tag, digest))
         == Some(if n.domain == "docker.io" then "registry-1.docker.io" else n.domain)
  {
    PrintedIs(name, tag, digest);
    ParseNormalizedPrint(name, n, tag, digest);
  }

  lemma SlashNotIdentifier(first: string, rest: string, tag: string, digest: string)
    ensures !IsIdentifier(Printed(first + "/" + rest, tag, digest))
  {
    assert (first + "/" + rest)[|first|] == '/';
    assert Printed(first + "/" + rest, tag, digest)[|first|] == '/';
  }

  /** The first component of a name is a registry. */
  predicate LooksLikeRegistry(first: string) {
    first == "localhost" || '.' in first || ':' in first || exists i :: 0 <= i < |first| && 'A' <= first[i] <= 'Z'
  }

  lemma {:induction false} LooksSpecial(first: string)
    ensures LooksLikeRegistry(first) <==> IsSpecial(first)
  {
    if forall i :: 0 <= i < |first| ==> !('A' <= first[i] <= 'Z') {
      LowerFixed(first);
    } else {
      var i :| 0 <= i < |first| && 'A' <= first[i] <= 'Z';
      assert ToLower(first)[i] == LowerChar(first[i]) != first[i];
    }
  }

  /** An image with a registry of its own. */
  lemma RegistryImageSays(registry: string, path: string, tag: string, digest: string)
    requires IsDomain(registry) && LooksLikeRegistry(registry)
    requires registry != "docker.io" && registry != "index.docker.io"
    requires IsPath(path) && |path| <= 255 && IsSuffix(tag, digest)
    ensures var image := Printed(registry + "/" + path, tag, digest);
      && ParseImageReference(image) == Some(Image(registry + "/" + path, VersionOf(tag, digest)))
      && ExtractRegistryDomain(image) == Some(registry)
  {
    LooksSpecial(registry);
    ForeignName(registry, path);
    SlashNotIdentifier(registry, path, tag, digest);
    NameSays(registry + "/" + path, Name(registry, path), tag, digest);
  }

  /** A path of Docker Hub. */
  lemma HubPathSays(first: string, rest: string, tag: string, digest: string)
    requires '/' !in first && !LooksLikeRegistry(first) && IsPath(first + "/" + rest) && |first + "/" + rest| <= 255
    requires !(first == "library" && '/' !in rest) && IsSuffix(tag, digest)
    ensures var image := Printed(first + "/" + rest, tag, digest);
      && ParseImageReference(image) == Some(Image(first + "/" + rest, VersionOf(tag, digest)))
      && ExtractRegistryDomain(image) == Some("registry-1.docker.io")
  {
    var path := first + "/" + rest;
    LooksSpecial(first);
    IndexLooks();
    NotLibrary(first, rest);
    HubNormalizes(first, rest);
    SlashNotIdentifier(first, rest, tag, digest);
    NameSays(path, Name(DOCKER_IO, path), tag, digest);
  }

  lemma HubNormalizes(first: string, rest: string)
    requires '/' !in first && !IsSpecial(first) && first != "index.docker.io"
    requires IsPath(first + "/" + rest) && |first + "/" + rest| <= 255 && !IsLibrary(first + "/" + rest)
    ensures NormalizesTo(first + "/" + rest, Name(DOCKER_IO, first + "/" + rest))
    ensures FamiliarName(Name(DOCKER_IO, first + "/" + rest)) == first + "/" + rest
  {
    RereadOrdinary(first, rest);
    DockerName(first + "/" + rest);
  }

  lemma IndexLooks()
    ensures LooksLikeRegistry("index.docker.io")
  {
    assert "index.docker.io"[5] == '.';
  }

  lemma NotLibrary(first: string, rest: string)
    requires '/' !in first && !(first == "library" && '/' !in rest)
    ensures !IsLibrary(first + "/" + rest)
  {
    var path := first + "/" + rest;
    if HasPrefix(path, LIBRARY) {
      LibrarySlash();
      PrefixCut(path, "library");
      CutAt(first, '/', rest);
      assert TrimPrefix(path, LIBRARY) == rest;
    }
  }

  /** An image of the library of Docker Hub. */
  lemma LibraryImageSays(name: string, tag: string, digest: string)
    requires IsComponent(name) && |name| <= 247 && IsSuffix(tag, digest) && !IsIdentifier(Printed(name, tag, digest))
    ensures var image := Printed(name, tag, digest);
      && ParseImageReference(image) == Some(Image(name, VersionOf(tag, digest)))
      && ExtractRegistryDomain(image) == Some("registry-1.docker.io")
  {
    ComponentIsPath(name);
    LibraryJoin(name);
    FamiliarLibrary(name);
    DockerName(LIBRARY + name);
    NameSays(name, Name(DOCKER_IO, LIBRARY + name), tag, digest);
  }

  /** With either name of Docker Hub in front, the image is the one without it. */
  lemma HubDomainSays(hub: string, path: string, tag: string, digest: string)
    requires hub == "docker.io" || hub == "index.docker.io"
    requires IsPath(path) && |path| <= 247 && IsSuffix(tag, digest)
    ensures var image := Printed(hub + "/" + path, tag, digest);
      var name := if HasPrefix(path, "library/") && '/' !in path[8..] then path[8..] else path;
      && ParseImageReference(image) == Some(Image(name, VersionOf(tag, digest)))
      && ExtractRegistryDomain(image) == Some("registry-1.docker.io")
  {
    var full := WithLibrary(path);
    HubPath(path);
    HubDomainNormalizes(hub, path, full);
    SlashNotIdentifier(hub, path, tag, digest);
    NameSays(hub + "/" + path, Name(DOCKER_IO, full), tag, digest);
  }

  lemma HubDomainNormalizes(hub: string, path: string, full: string)
    requires hub == DOCKER_IO || hub == "index.docker.io"
    requires full == WithLibrary(path) && IsPath(full) && |full| <= 255
    ensures NormalizesTo(hub + "/" + path, Name(DOCKER_IO, full))
  {
    HubSplits(hub, path);
    DockerName(full);
  }

  lemma HubSplits(hub: string, path: string)
    requires hub == DOCKER_IO || hub == "index.docker.io"
    ensures SplitDomain(hub + "/" + path) == Name(DOCKER_IO, WithLibrary(path))
  {
    HubHasNoSlash(hub);
    CutAt(hub, '/', path);
  }

  lemma HubHasNoSlash(hub: string)
    requires hub == DOCKER_IO || hub == "index.docker.io"
    ensures '/' !in hub && IsSpecial(hub)
  {
    assert hub[|hub| - 3] == '.';
  }

  lemma HubPath(path: string)
    requires IsPath(path) && |path| <= 247
    ensures var full := WithLibrary(path);
      && IsPath(full) && |full| <= 255
      && FamiliarName(Name(DOCKER_IO, full)) ==
         if HasPrefix(path, "library/") && '/' !in path[8..] then path[8..] else path
  {
    if '/' !in path {
      LibraryJoin(path);
      FamiliarLibrary(path);
    }
  }

  /** Splitting and printing an image reference gives a reference that says the same, exactly if the
      digest is not sha384 and the name does not begin with a Docker Hub domain. */
  lemma RoundTripsIff(image: string)
    requires ParseImageReference(image).Some?
    ensures var Image(name, version) := ParseImageReference(image).value;
      ParseImageReference(BuildImageReference(name, version)) == Some(Image(name, version)) <==>
      !HasPrefix(version, "sha384:") && !HasPrefix(name, "docker.io/") && !HasPrefix(name, "index.docker.io/")
  {
    var Image(name, version) := ParseImageReference(image).value;
    var n := FamiliarNormalizes(image);
    ParsedVersion(image);
    Reparse(name, n, version);
    if !IsTag(version) { TagDigest(version); }
  }

  /** For whatever the controllers print, the proxy, given the bare name, extracts the same registry;
      only a name that is a 64-digit hexadecimal string is accepted by the controllers and refused by
      the proxy. */
  lemma SameRegistryIff(image: string)
    requires ParseImageReference(image).Some?
    ensures var Image(name, version) := ParseImageReference(image).value;
      var printed := ExtractRegistryDomain(BuildImageReference(name, version));
      && (printed.Some? <==> !HasPrefix(version, "sha384:"))
      && (printed.Some? ==> (ExtractRegistryDomain(name) == printed <==> !IsIdentifier(name)))
      && (ExtractRegistryDomain(name).Some? <==> !IsIdentifier(name))
  {
    var Image(name, version) := ParseImageReference(image).value;
    var n := FamiliarNormalizes(image);
    ParsedVersion(image);
    Reparse(name, n, version);
    BareName(name, n);
  }

  lemma ParsedDomain(image: string)
    requires ParseNormalized(image).Some?
    ensures '/' !in ParseNormalized(image).value.domain
  {
    var split, named := SplitDomain(image), ParseNormalized(image).value;
    var q := ParsedName(image);
    SplitShape(image);
    ParsePair(split.domain, q);
  }

  lemma DefaultHasNoSlash()
    ensures '/' !in DEFAULT_REGISTRY
  {
  }

  /** A registry never contains a slash, so registry and repository can be told apart in a cache key. */
  lemma RegistryHasNoSlash(image: string)
    requires ExtractRegistryDomain(image).Some?
    ensures '/' !in ExtractRegistryDomain(image).value
  {
    ParsedDomain(image);
    DefaultHasNoSlash();
  }
}
