/** The default UKI of the boot server (server/bootserver.go, internal/uki/oci.go) and the proxy. */
module DefaultUki {
  import opened Wrappers
  import opened Reference
  import opened ReferenceProofs
  import opened ReferenceRoundTrip
  import opened ReferenceNames
  import opened Manifest
  import opened PublishedUrls
  import opened UkiReference
  import AllowList
  import UkiPath
  import UkiUrl

  // ----- The code -----------------------------------------------------------------------------------------------

  /** `ConstructUKIURLFromOCI` */
  method ConstructUkiURLFromOCI(r: Registries, image: string, imageServerURL: string, architecture: string)
    returns (url: Result<string>, manifest: Result<seq<Layer>>)
    ensures ParseOCIReferenceForUKI(image).Err? ==> url == Err
    ensures ParseOCIReferenceForUKI(image).Ok? ==>
      var parsed := ParseOCIReferenceForUKI(image).value;
      && (if parsed.imageRef in r.resolved then
            IsManifest(r.documents, r.resolved[parsed.imageRef], architecture, Options(false, ""), manifest)
          else manifest == Err)
      && IsUkiURL(imageServerURL, parsed.repository, manifest, url)
  {
    var parsed := ParseOCIReferenceForUKI(image);
    if parsed.Err? {
      return Err, Err;
    }
    if parsed.value.imageRef !in r.resolved {
      return Err, Err;
    }
    manifest := FindManifestByArchitecture(r.documents, r.resolved[parsed.value.imageRef], architecture,
        Options(false, ""));
    url := UkiURLOf(imageServerURL, parsed.value.repository, manifest);
  }

  // ----- The repository is the name ---------------------------------------------------------------------------------

  function NonEmpty(s: string): Option<string> {
    if s == "" then None else Some(s)
  }

  lemma SamePrint(name: string, tag: string, digest: string)
    ensures WithDigest(WithTag(name, tag), digest) == Print(name, NonEmpty(tag), NonEmpty(digest))
  {
  }

  /** For an image both parsers accept, the repository that goes into the UKI URL is the image without tag
      and digest: the name the reference parser sees. */
  lemma RepositoryIsName(image: string) returns (n: Name)
    requires ParseNormalized(image).Some? && ParseOCIReferenceForUKI(image).Ok?
    ensures NormalizesTo(ParseOCIReferenceForUKI(image).value.repository, n)
    ensures n == Name(ParseNormalized(image).value.domain, ParseNormalized(image).value.path)
  {
    var name;
    name, n := NameInImage(image);
    var named := ParseNormalized(image).value;
    NameFree(name, n);
    Untagged(name);
    EmptyIsNoName(n);
    SamePrint(name, named.tag, named.digest);
    if named.tag == "" && named.digest == "" {
      RejectedWithoutTag(name);
      assert false;
    }
    if named.tag != "" { TagFree(named.tag); }
    UkiReference.ParsePrint(name, NonEmpty(named.tag), NonEmpty(named.digest));
  }

  /** The default UKI URL of a validated image is served by the proxy from the registry and repository that
      were validated, exactly if the repository is no 64-digit hexadecimal string and the digest of the
      layer can stand in a path. */
  lemma DefaultServedIff(allowed: string, image: string, scheme: string, host: string, digest: string)
    requires AllowList.Validate(allowed, image).Valid? && ParseOCIReferenceForUKI(image).Ok?
    requires UkiUrl.IsServer(scheme, host)
    ensures var repository := ParseOCIReferenceForUKI(image).value.repository;
      var request := UkiUrl.Request(UkiPath.UkiURL(UkiUrl.Server(scheme, host) + "/httpboot", repository, digest));
      UkiPath.Names(request, repository, digest) && Serves(request, allowed, image, digest) <==>
      !IsIdentifier(repository) && UkiUrl.IsPathDigest(digest)
  {
    var repository := ParseOCIReferenceForUKI(image).value.repository;
    var n := RepositoryIsName(image);
    BareName(repository, n);
    UkiUrl.UkiURLRoundTripsIff(scheme, host, repository, digest);
    RequestDetails(UkiPath.UkiURL(UkiUrl.Server(scheme, host) + "/httpboot", repository, digest), repository, digest);
  }
}
