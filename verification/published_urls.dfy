/**
 From the image of a ServerBootConfiguration to the URLs published for it, and back at the proxy:
 `getImageDetailsFromConfig` (PXE), `constructUKIURL` (HTTP), and the two request parsers.
 */
module PublishedUrls {
  import opened Wrappers
  import opened Text
  import opened Reference
  import opened ReferenceProofs
  import opened ReferenceRoundTrip
  import opened ReferenceNames
  import opened Manifest
  import opened ImageUrl
  import UkiPath
  import UkiUrl
  import AllowList

  lemma RefBytes(s: string)
    requires RefChars(s)
    ensures Bytes(s)
  {
    forall i | 0 <= i < |s| ensures IsByte(s[i]) { RefByte(s[i]); }
  }

  lemma RefByte(c: char)
    requires IsRefChar(c)
    ensures IsByte(c)
  {
  }

  /** Name and version of an image reference are non-empty byte strings. */
  lemma ImageBytes(image: string)
    requires ParseImageReference(image).Some?
    ensures var Image(name, version) := ParseImageReference(image).value;
      Bytes(name) && Bytes(version) && name != "" && version != ""
  {
    ImageChars(image);
    RefBytes(ParseImageReference(image).value.name);
    RefBytes(ParseImageReference(image).value.version);
  }

  // ----- Publishing ---------------------------------------------------------------------------------------------

  /** A world the controllers run in: the allow list, and what the registries answer. */
  datatype Registries = Registries(allowed: string, resolved: map<string, Descriptor>, documents: map<string, Document>)

  const CNAME_PREFIX := "metal_pxe"

  /** The manifest behind an image reference: validated, resolved, found. */
  ghost predicate IsImage(r: Registries, imageRef: string, architecture: string, opts: Options,
      result: Result<seq<Layer>>) {
    if AllowList.Validate(r.allowed, imageRef).Valid? && imageRef in r.resolved then
      IsManifest(r.documents, r.resolved[imageRef], architecture, opts, result)
    else result == Err
  }

  /** Nothing is fetched that the allow list does not admit or the registry does not resolve; what is admitted
      and resolved is fetched. */
  lemma OnlyValidated(r: Registries, imageRef: string, architecture: string, opts: Options, result: Result<seq<Layer>>)
    requires IsImage(r, imageRef, architecture, opts, result)
    ensures result.Ok? ==> AllowList.Validate(r.allowed, imageRef).Valid? && imageRef in r.resolved
    ensures AllowList.Validate(r.allowed, imageRef).Valid? && imageRef in r.resolved ==>
      IsManifest(r.documents, r.resolved[imageRef], architecture, opts, result)
  {
  }

  method FetchImage(r: Registries, imageRef: string, architecture: string, opts: Options)
      returns (result: Result<seq<Layer>>)
    ensures IsImage(r, imageRef, architecture, opts, result)
  {
    if !AllowList.Validate(r.allowed, imageRef).Valid? || imageRef !in r.resolved {
      return Err;
    }
    result := FindManifestByArchitecture(r.documents, r.resolved[imageRef], architecture, opts);
  }

  datatype URLs = URLs(kernel: string, initrd: string, squashFS: string)

  /** "" for a layer the image does not have. */
  function LayerURL(serviceURL: string, image: Image, digest: string): string
    requires Bytes(image.name) && Bytes(image.version) && Bytes(digest)
  {
    if digest == "" then "" else BuildImageURL(serviceURL, image.name, image.version, digest)
  }

  ghost predicate ByteDigests(layers: seq<Layer>) {
    forall l :: l in layers ==> Bytes(l.digest)
  }

  lemma {:induction false} LastDigestBytes(layers: seq<Layer>, mediaType: string, older: string)
    requires ByteDigests(layers)
    ensures Bytes(LastDigest(layers, mediaType, older))
  {
    if layers != [] {
      assert layers[|layers| - 1] in layers;
      LastDigestBytes(layers[..|layers| - 1], mediaType, older);
    }
  }

  ghost predicate ArePublished(serviceURL: string, image: Image, layers: seq<Layer>, urls: URLs)
    requires Bytes(image.name) && Bytes(image.version) && ByteDigests(layers)
  {
    LastDigestBytes(layers, KERNEL, KERNEL_OLD);
    LastDigestBytes(layers, INITRD, INITRD_OLD);
    LastDigestBytes(layers, SQUASH_FS, SQUASH_FS_OLD);
    && urls.kernel == LayerURL(serviceURL, image, LastDigest(layers, KERNEL, KERNEL_OLD))
    && urls.initrd == LayerURL(serviceURL, image, LastDigest(layers, INITRD, INITRD_OLD))
    && urls.squashFS == LayerURL(serviceURL, image, LastDigest(layers, SQUASH_FS, SQUASH_FS_OLD))
  }

  /** Which media types make which URL. */
  predicate IsURLFor(urls: URLs, mediaType: string, older: string, url: string) {
    || (mediaType == "application/vnd.ironcore.image.kernel" && older == "application/io.gardenlinux.kernel"
        && url == urls.kernel)
    || (mediaType == "application/vnd.ironcore.image.initramfs" && older == "application/io.gardenlinux.initrd"
        && url == urls.initrd)
    || (mediaType == "application/vnd.ironcore.image.squashfs" && older == "application/io.gardenlinux.squashfs"
        && url == urls.squashFS)
  }

  lemma LastDigestPublished(serviceURL: string, image: Image, layers: seq<Layer>, urls: URLs, mediaType: string,
                            older: string, url: string)
    requires Bytes(image.name) && Bytes(image.version) && ByteDigests(layers)
    requires ArePublished(serviceURL, image, layers, urls) && IsURLFor(urls, mediaType, older, url)
    ensures Bytes(LastDigest(layers, mediaType, older))
    ensures url == LayerURL(serviceURL, image, LastDigest(layers, mediaType, older))
  {
    LastDigestBytes(layers, mediaType, older);
  }

  /** The last layer of one of the two media types is published with name and version of the image. */
  lemma LayerPublished(serviceURL: string, image: Image, layers: seq<Layer>, urls: URLs, mediaType: string,
                       older: string, url: string, i: nat)
    requires Bytes(image.name) && Bytes(image.version) && ByteDigests(layers)
    requires ArePublished(serviceURL, image, layers, urls) && IsURLFor(urls, mediaType, older, url)
    requires i < |layers| && (layers[i].mediaType == mediaType || layers[i].mediaType == older)
    requires forall k :: i < k < |layers| ==> layers[k].mediaType != mediaType && layers[k].mediaType != older
    ensures Bytes(layers[i].digest) && url ==
      if layers[i].digest == "" then "" else BuildImageURL(serviceURL, image.name, image.version, layers[i].digest)
  {
    LastDigestIs(layers, mediaType, older, i);
    LastDigestPublished(serviceURL, image, layers, urls, mediaType, older, url);
  }

  /** No URL is made up for a layer the image does not have. */
  lemma NothingPublished(serviceURL: string, image: Image, layers: seq<Layer>, urls: URLs, mediaType: string,
                         older: string, url: string)
    requires Bytes(image.name) && Bytes(image.version) && ByteDigests(layers)
    requires ArePublished(serviceURL, image, layers, urls) && IsURLFor(urls, mediaType, older, url)
    requires forall l :: l in layers ==> l.mediaType != mediaType && l.mediaType != older
    ensures url == ""
  {
    LastDigestPublished(serviceURL, image, layers, urls, mediaType, older, url);
    NoLastDigest(layers, mediaType, older);
  }

  ghost predicate ByteDocuments(documents: map<string, Document>) {
    forall d :: d in documents && documents[d].manifest.Some? ==> ByteDigests(documents[d].manifest.value)
  }

  lemma ManifestBytes(r: Registries, imageRef: string, architecture: string, opts: Options, result: Result<seq<Layer>>)
    requires ByteDocuments(r.documents) && IsImage(r, imageRef, architecture, opts, result) && result.Ok?
    ensures ByteDigests(result.value)
  {
  }

  /** The URL variables of `getImageDetailsFromConfig`. */
  method PublishLayers(serviceURL: string, image: Image, layers: seq<Layer>) returns (urls: URLs)
    requires Bytes(image.name) && Bytes(image.version) && ByteDigests(layers)
    ensures ArePublished(serviceURL, image, layers, urls)
  {
    var digests := LayerDigests(layers);
    LastDigestBytes(layers, KERNEL, KERNEL_OLD);
    LastDigestBytes(layers, INITRD, INITRD_OLD);
    LastDigestBytes(layers, SQUASH_FS, SQUASH_FS_OLD);
    var kernelURL, initrdURL, squashFSURL := "", "", "";
    if digests.kernel != "" {
      kernelURL := BuildImageURL(serviceURL, image.name, image.version, digests.kernel);
    }
    if digests.initrd != "" {
      initrdURL := BuildImageURL(serviceURL, image.name, image.version, digests.initrd);
    }
    if digests.squashFS != "" {
      squashFSURL := BuildImageURL(serviceURL, image.name, image.version, digests.squashFS);
    }
    urls := URLs(kernelURL, initrdURL, squashFSURL);
  }

  /** An error without a manifest, otherwise the URLs of its layers. */
  ghost predicate ArePublishedFor(serviceURL: string, image: Image, manifest: Result<seq<Layer>>, urls: Result<URLs>)
    requires Bytes(image.name) && Bytes(image.version) && (manifest.Ok? ==> ByteDigests(manifest.value))
  {
    if manifest.Err? then urls == Err else urls.Ok? && ArePublished(serviceURL, image, manifest.value, urls.value)
  }

  /** `getImageDetailsFromConfig`; `manifest` is what was fetched on the way. */
  method GetImageDetails(r: Registries, specImage: string, architecture: string, serviceURL: string)
    returns (urls: Result<URLs>, manifest: Result<seq<Layer>>)
    requires ByteDocuments(r.documents)
    ensures ParseImageReference(specImage).None? ==> urls == Err
    ensures ParseImageReference(specImage).Some? ==>
      var image := ParseImageReference(specImage).value;
      && IsImage(r, BuildImageReference(image.name, image.version), architecture, Options(true, CNAME_PREFIX), manifest)
      && Bytes(image.name) && Bytes(image.version) && (manifest.Ok? ==> ByteDigests(manifest.value))
      && ArePublishedFor(serviceURL, image, manifest, urls)
  {
    var parsed := ParseImageReference(specImage);
    if parsed.None? {
      return Err, Err;
    }
    ImageBytes(specImage);
    urls, manifest := GetLayerURLs(r, parsed.value, architecture, serviceURL);
  }

  method GetLayerURLs(r: Registries, image: Image, architecture: string, serviceURL: string)
    returns (urls: Result<URLs>, manifest: Result<seq<Layer>>)
    requires ByteDocuments(r.documents) && Bytes(image.name) && Bytes(image.version)
    ensures IsImage(r, BuildImageReference(image.name, image.version), architecture, Options(true, CNAME_PREFIX),
        manifest)
    ensures manifest.Ok? ==> ByteDigests(manifest.value)
    ensures ArePublishedFor(serviceURL, image, manifest, urls)
  {
    var imageRef, opts := BuildImageReference(image.name, image.version), Options(true, CNAME_PREFIX);
    manifest := FetchImage(r, imageRef, architecture, opts);
    if manifest.Err? {
      return Err, manifest;
    }
    ManifestBytes(r, imageRef, architecture, opts, manifest);
    var published := PublishLayers(serviceURL, image, manifest.value);
    urls := Ok(published);
  }

  /** The URL of the first UKI layer, an error without one. */
  ghost predicate IsUkiURL(imageServerURL: string, name: string, manifest: Result<seq<Layer>>, url: Result<string>) {
    if manifest.Err? || forall l :: l in manifest.value ==> l.mediaType != UKI then url == Err
    else exists i: nat ::
           FirstUKI(manifest.value, i) && url == Ok(UkiPath.UkiURL(imageServerURL, name, manifest.value[i].digest))
  }

  /** A URL is published exactly if the image has a UKI layer, and it is the URL of the first. */
  lemma UkiPublished(imageServerURL: string, name: string, layers: seq<Layer>, url: Result<string>)
    requires IsUkiURL(imageServerURL, name, Ok(layers), url)
    ensures url.Ok? <==> exists l :: l in layers && l.mediaType == "application/vnd.ironcore.image.uki"
    ensures forall i: nat :: FirstUKI(layers, i) ==>
      url == Ok(UkiPath.UkiURL(imageServerURL, name, layers[i].digest))
  {
    forall i: nat | FirstUKI(layers, i) ensures layers[i] in layers {
    }
  }

  method UkiURLOf(imageServerURL: string, name: string, manifest: Result<seq<Layer>>) returns (url: Result<string>)
    ensures IsUkiURL(imageServerURL, name, manifest, url)
  {
    if manifest.Err? {
      return Err;
    }
    var digest := UKIDigest(manifest.value);
    if digest.None? {
      return Err;
    }
    url := Ok(UkiPath.UkiURL(imageServerURL, name, digest.value));
  }

  /** `constructUKIURL` */
  method ConstructUkiURL(r: Registries, specImage: string, architecture: string, imageServerURL: string)
    returns (url: Result<string>, manifest: Result<seq<Layer>>)
    ensures ParseImageReference(specImage).None? ==> url == Err
    ensures ParseImageReference(specImage).Some? ==>
      var image := ParseImageReference(specImage).value;
      && IsImage(r, BuildImageReference(image.name, image.version), architecture, Options(false, ""), manifest)
      && IsUkiURL(imageServerURL, image.name, manifest, url)
  {
    var parsed := ParseImageReference(specImage);
    if parsed.None? {
      return Err, Err;
    }
    var image := parsed.value;
    manifest := FetchImage(r, BuildImageReference(image.name, image.version), architecture, Options(false, ""));
    url := UkiURLOf(imageServerURL, image.name, manifest);
  }

  // ----- Serving ----------------------------------------------------------------------------------------------------

  /** The proxy goes to the registry and the repository that the controller validated and resolved, for
      this layer, and its own check passes. */
  predicate Serves(request: Result<Details>, allowed: string, imageRef: string, digest: string) {
    && request.Ok? && request.value.layerDigest == digest
    && ExtractRegistryDomain(imageRef) == Some(request.value.registry)
    && ParseNormalized(imageRef).value.path == request.value.repository
    && AllowList.Allowed(allowed, request.value.registry)
  }

  /** The proxy's view of a printed name: nothing for a 64-digit hexadecimal name, else the registry and
      repository of the printed reference. */
  lemma SameRepository(image: string)
    requires ParseImageReference(image).Some?
    ensures var Image(name, version) := ParseImageReference(image).value;
      var printed, bare := ParseNormalized(BuildImageReference(name, version)), ParseNormalized(name);
      && (bare.Some? <==> !IsIdentifier(name))
      && (bare.Some? && printed.Some? ==>
          bare.value.domain == printed.value.domain && bare.value.path == printed.value.path)
  {
    var Image(name, version) := ParseImageReference(image).value;
    var n := FamiliarNormalizes(image);
    ParsedVersion(image);
    Reparse(name, n, version);
    BareName(name, n);
  }

  /** Every layer URL the PXE controller publishes for a validated image is served by the proxy from the
      registry and repository that were validated, unless the name is a 64-digit hexadecimal string or
      ends in `.efi`. */
  lemma LayerURLServedIff(allowed: string, image: string, serviceURL: string, digest: string)
    requires ParseImageReference(image).Some?
    requires '?' !in serviceURL && '#' !in serviceURL && Bytes(digest) && digest != ""
    requires var Image(name, version) := ParseImageReference(image).value;
      AllowList.Validate(allowed, BuildImageReference(name, version)).Valid?
    ensures var Image(name, version) := ParseImageReference(image).value;
      && Bytes(name) && Bytes(version)
      && var request := ParseImageURL(ParseQuery(QueryOf(BuildImageURL(serviceURL, name, version, digest))));
         Says(request, name, version, digest) &&
             Serves(request, allowed, BuildImageReference(name, version), digest) <==>
         !IsIdentifier(name) && !HasSuffix(name, ".efi")
  {
    var Image(name, version) := ParseImageReference(image).value;
    ImageBytes(image);
    SameRepository(image);
    ImageURLRoundTripsIff(serviceURL, name, version, digest);
    LayerDetails(serviceURL, name, version, digest);
  }

  lemma LayerDetails(serviceURL: string, name: string, version: string, digest: string)
    requires '?' !in serviceURL && '#' !in serviceURL && Bytes(name) && Bytes(version) && Bytes(digest)
    ensures var request := ParseImageURL(ParseQuery(QueryOf(BuildImageURL(serviceURL, name, version, digest))));
      Says(request, name, version, digest) ==>
        ParseNormalized(name).Some? && ExtractRegistryDomain(name) == Some(request.value.registry)
        && request.value.repository == ParseNormalized(name).value.path
  {
  }

  /** The UKI URL the HTTP controller publishes for a validated image is served likewise, exactly if the
      name is no 64-digit hexadecimal string and the digest of the layer can stand in a path. */
  lemma UkiURLServedIff(allowed: string, image: string, scheme: string, host: string, digest: string)
    requires ParseImageReference(image).Some? && UkiUrl.IsServer(scheme, host)
    requires var Image(name, version) := ParseImageReference(image).value;
      AllowList.Validate(allowed, BuildImageReference(name, version)).Valid?
    ensures var Image(name, version) := ParseImageReference(image).value;
      var request := UkiUrl.Request(UkiPath.UkiURL(UkiUrl.Server(scheme, host) + "/httpboot", name, digest));
      UkiPath.Names(request, name, digest) && Serves(request, allowed, BuildImageReference(name, version), digest) <==>
      !IsIdentifier(name) && UkiUrl.IsPathDigest(digest)
  {
    var Image(name, version) := ParseImageReference(image).value;
    var url := UkiPath.UkiURL(UkiUrl.Server(scheme, host) + "/httpboot", name, digest);
    SameRepository(image);
    UkiUrl.UkiURLRoundTripsIff(scheme, host, name, digest);
    RequestDetails(url, name, digest);
  }

  /** Registry and repository in a request are those of the image it names. */
  lemma RequestDetails(url: string, name: string, digest: string)
    ensures var request := UkiUrl.Request(url);
      UkiPath.Names(request, name, digest) ==>
        ParseNormalized(name).Some? && ExtractRegistryDomain(name) == Some(request.value.registry)
        && request.value.repository == ParseNormalized(name).value.path
  {
    var path := UkiUrl.RequestPath(url);
    if path.Some? { UkiDetails(path.value, name, digest); }
  }

  lemma UkiDetails(path: string, name: string, digest: string)
    ensures var request := UkiPath.ParseHttpBootImagePath(path);
      UkiPath.Names(request, name, digest) ==>
        ParseNormalized(name).Some? && ExtractRegistryDomain(name) == Some(request.value.registry)
        && request.value.repository == ParseNormalized(name).value.path
  {
  }
}
