/**
 Choosing a manifest and its layers: `FindManifestByArchitecture` (internal/oci/manifest.go), the layer
 loops of the PXE controller, the HTTP controller and internal/uki/oci.go.
 */
module Manifest {
  import opened Wrappers
  import opened Text

  datatype Layer = Layer(mediaType: string, digest: string)

  datatype Descriptor = Descriptor(
    mediaType: string, digest: string, annotations: map<string, string>, platform: Option<string>)

  /** A fetched document, read as a manifest and as an index; None where it does not unmarshal. */
  datatype Document = Document(manifest: Option<seq<Layer>>, index: Option<seq<Descriptor>>)

  datatype Options = Options(enableCNAMECompat: bool, cnamePrefix: string)

  const INDEX_TYPE := "application/vnd.oci.image.index.v1+json"
  const CNAME := "cname"
  const ARCHITECTURE := "architecture"
  const UKI := "application/vnd.ironcore.image.uki"
  const KERNEL := "application/vnd.ironcore.image.kernel"
  const INITRD := "application/vnd.ironcore.image.initramfs"
  const SQUASH_FS := "application/vnd.ironcore.image.squashfs"
  const KERNEL_OLD := "application/io.gardenlinux.kernel"
  const INITRD_OLD := "application/io.gardenlinux.initrd"
  const SQUASH_FS_OLD := "application/io.gardenlinux.squashfs"

  /** A missing annotation reads as "". */
  function Annotation(d: Descriptor, key: string): string {
    if key in d.annotations then d.annotations[key] else ""
  }

  predicate IsCNAMEMatch(d: Descriptor, prefix: string, architecture: string) {
    HasPrefix(Annotation(d, CNAME), prefix) && Annotation(d, ARCHITECTURE) == architecture
  }

  predicate IsPlatformMatch(d: Descriptor, architecture: string) {
    d.platform == Some(architecture)
  }

  // ----- Specification ----------------------------------------------------------------------------------------

  /** The first cname match below `n`, if the options ask for one. */
  ghost predicate FirstCNAME(manifests: seq<Descriptor>, architecture: string, opts: Options, i: nat) {
    && opts.enableCNAMECompat && TrimSpace(opts.cnamePrefix) != ""
    && i < |manifests| && IsCNAMEMatch(manifests[i], opts.cnamePrefix, architecture)
    && forall k :: 0 <= k < i ==> !IsCNAMEMatch(manifests[k], opts.cnamePrefix, architecture)
  }

  ghost predicate FirstPlatform(manifests: seq<Descriptor>, architecture: string, i: nat) {
    && i < |manifests| && IsPlatformMatch(manifests[i], architecture)
    && forall k :: 0 <= k < i ==> !IsPlatformMatch(manifests[k], architecture)
  }

  /** The descriptor to use: the first cname match if it has a digest, else the first platform match if it
      has one. */
  ghost predicate IsTarget(manifests: seq<Descriptor>, architecture: string, opts: Options, i: nat) {
    && i < |manifests| && manifests[i].digest != ""
    && (FirstCNAME(manifests, architecture, opts, i)
        || (FirstPlatform(manifests, architecture, i)
            && forall k: nat :: FirstCNAME(manifests, architecture, opts, k) ==> manifests[k].digest == ""))
  }

  /** What `FindManifestByArchitecture` returns, for whatever the registry answers. */
  ghost predicate IsManifest(documents: map<string, Document>, desc: Descriptor, architecture: string, opts: Options,
                             result: Result<seq<Layer>>)
  {
    if desc.digest !in documents || documents[desc.digest].manifest.None? then result == Err
    else if desc.mediaType != INDEX_TYPE then result == Ok(documents[desc.digest].manifest.value)
    else if documents[desc.digest].index.None? then result == Err
    else
      var manifests := documents[desc.digest].index.value;
      if exists i: nat :: IsTarget(manifests, architecture, opts, i) then
        exists i: nat :: IsTarget(manifests, architecture, opts, i) && result == Nested(documents, manifests[i].digest)
      else result == Err
  }

  function Nested(documents: map<string, Document>, digest: string): Result<seq<Layer>> {
    if digest !in documents || documents[digest].manifest.None? then Err else Ok(documents[digest].manifest.value)
  }

  lemma TargetUnique(manifests: seq<Descriptor>, architecture: string, opts: Options, i: nat, j: nat)
    requires IsTarget(manifests, architecture, opts, i) && IsTarget(manifests, architecture, opts, j)
    ensures i == j
  {
  }

  /** There is at most one target, so the result is determined by what the registry answers. */
  lemma ManifestDetermined(documents: map<string, Document>, desc: Descriptor, architecture: string, opts: Options,
                           a: Result<seq<Layer>>, b: Result<seq<Layer>>)
    requires IsManifest(documents, desc, architecture, opts, a) && IsManifest(documents, desc, architecture, opts, b)
    ensures a == b
  {
    forall manifests, i: nat, j: nat | IsTarget(manifests, architecture, opts, i) &&
        IsTarget(manifests, architecture, opts, j)
      ensures i == j
    {
      TargetUnique(manifests, architecture, opts, i, j);
    }
  }

  /** When every descriptor has a digest: the first cname match if any, else the first platform match. */
  lemma TargetWithDigests(manifests: seq<Descriptor>, architecture: string, opts: Options, i: nat)
    requires forall d :: d in manifests ==> d.digest != ""
    ensures IsTarget(manifests, architecture, opts, i) <==>
      FirstCNAME(manifests, architecture, opts, i)
      || (FirstPlatform(manifests, architecture, i) && !exists k: nat :: FirstCNAME(manifests, architecture, opts, k))
  {
    forall k: nat | FirstCNAME(manifests, architecture, opts, k) ensures manifests[k].digest != "" {
      assert manifests[k] in manifests;
    }
    if i < |manifests| { assert manifests[i] in manifests; }
  }

  // ----- What is chosen, in the terms of the index -------------------------------------------------------------

  /** The annotations name the architecture and a cname with the prefix. */
  predicate NamedFor(d: Descriptor, prefix: string, architecture: string) {
    && (if "architecture" in d.annotations then d.annotations["architecture"] else "") == architecture
    && HasPrefix(if "cname" in d.annotations then d.annotations["cname"] else "", prefix)
  }

  ghost predicate FirstNamed(manifests: seq<Descriptor>, architecture: string, prefix: string, i: nat) {
    && i < |manifests| && NamedFor(manifests[i], prefix, architecture)
    && forall k :: 0 <= k < i ==> !NamedFor(manifests[k], prefix, architecture)
  }

  ghost predicate IsIndex(documents: map<string, Document>, desc: Descriptor, manifests: seq<Descriptor>) {
    && desc.mediaType == "application/vnd.oci.image.index.v1+json" && desc.digest in documents
    && documents[desc.digest].manifest.Some? && documents[desc.digest].index == Some(manifests)
  }

  ghost predicate Fetches(documents: map<string, Document>, digest: string, result: Result<seq<Layer>>) {
    result == if digest in documents && documents[digest].manifest.Some? then Ok(documents[digest].manifest.value)
              else Err
  }

  /** Annotations are asked for, and no first descriptor named by them has a digest. */
  ghost predicate NoneNamed(manifests: seq<Descriptor>, architecture: string, opts: Options) {
    opts.enableCNAMECompat && TrimSpace(opts.cnamePrefix) != "" ==>
      forall i: nat :: FirstNamed(manifests, architecture, opts.cnamePrefix, i) ==> manifests[i].digest == ""
  }

  lemma MatchIs(d: Descriptor, prefix: string, architecture: string)
    ensures IsCNAMEMatch(d, prefix, architecture) <==> NamedFor(d, prefix, architecture)
  {
  }

  lemma FirstIs(manifests: seq<Descriptor>, architecture: string, opts: Options, i: nat)
    ensures FirstCNAME(manifests, architecture, opts, i) <==>
      opts.enableCNAMECompat && TrimSpace(opts.cnamePrefix) != ""
      && FirstNamed(manifests, architecture, opts.cnamePrefix, i)
  {
    forall d: Descriptor ensures IsCNAMEMatch(d, opts.cnamePrefix, architecture) <==>
        NamedFor(d, opts.cnamePrefix, architecture)
    {
      MatchIs(d, opts.cnamePrefix, architecture);
    }
  }

  lemma TargetFetched(documents: map<string, Document>, desc: Descriptor, manifests: seq<Descriptor>,
                      architecture: string, opts: Options, result: Result<seq<Layer>>, i: nat)
    requires IsManifest(documents, desc, architecture, opts, result) && IsIndex(documents, desc, manifests)
    requires IsTarget(manifests, architecture, opts, i)
    ensures Fetches(documents, manifests[i].digest, result)
  {
    var j: nat :| IsTarget(manifests, architecture, opts, j) && result == Nested(documents, manifests[j].digest);
    TargetUnique(manifests, architecture, opts, i, j);
  }

  /** Where annotations are asked for, the first descriptor they name is fetched. */
  lemma NamedIsFetched(documents: map<string, Document>, desc: Descriptor, manifests: seq<Descriptor>,
                       architecture: string, opts: Options, result: Result<seq<Layer>>, i: nat)
    requires IsManifest(documents, desc, architecture, opts, result) && IsIndex(documents, desc, manifests)
    requires opts.enableCNAMECompat && TrimSpace(opts.cnamePrefix) != ""
    requires FirstNamed(manifests, architecture, opts.cnamePrefix, i) && manifests[i].digest != ""
    ensures Fetches(documents, manifests[i].digest, result)
  {
    FirstIs(manifests, architecture, opts, i);
    TargetFetched(documents, desc, manifests, architecture, opts, result, i);
  }

  /** Otherwise the first descriptor for the platform is. */
  lemma PlatformIsFetched(documents: map<string, Document>, desc: Descriptor, manifests: seq<Descriptor>,
                          architecture: string, opts: Options, result: Result<seq<Layer>>, i: nat)
    requires IsManifest(documents, desc, architecture, opts, result) && IsIndex(documents, desc, manifests)
    requires NoneNamed(manifests, architecture, opts) && i < |manifests| && manifests[i].digest != ""
    requires manifests[i].platform == Some(architecture)
    requires forall k :: 0 <= k < i ==> manifests[k].platform != Some(architecture)
    ensures Fetches(documents, manifests[i].digest, result)
  {
    forall k: nat | FirstCNAME(manifests, architecture, opts, k) ensures manifests[k].digest == "" {
      FirstIs(manifests, architecture, opts, k);
    }
    assert FirstPlatform(manifests, architecture, i);
    TargetFetched(documents, desc, manifests, architecture, opts, result, i);
  }

  /** With no descriptor for the platform either there is no manifest. */
  lemma NothingIsFetched(documents: map<string, Document>, desc: Descriptor, manifests: seq<Descriptor>,
                         architecture: string, opts: Options, result: Result<seq<Layer>>)
    requires IsManifest(documents, desc, architecture, opts, result) && IsIndex(documents, desc, manifests)
    requires NoneNamed(manifests, architecture, opts)
    requires forall d :: d in manifests ==> d.platform != Some(architecture)
    ensures result == Err
  {
    forall i: nat ensures !IsTarget(manifests, architecture, opts, i) {
      FirstIs(manifests, architecture, opts, i);
      if i < |manifests| { assert manifests[i] in manifests; }
    }
  }

  /** What is not an index is the manifest itself. */
  lemma PlainIsFetched(documents: map<string, Document>, desc: Descriptor, architecture: string, opts: Options,
                       result: Result<seq<Layer>>)
    requires IsManifest(documents, desc, architecture, opts, result)
    requires desc.mediaType != "application/vnd.oci.image.index.v1+json"
    ensures Fetches(documents, desc.digest, result)
  {
  }

  // ----- The code -------------------------------------------------------------------------------------------------

  const NO_DESCRIPTOR := Descriptor("", "", map[], None)

  /** The two passes over the index. */
  method Target(manifests: seq<Descriptor>, architecture: string, opts: Options) returns (target: Descriptor)
    ensures target.digest != "" ==>
      exists i: nat :: IsTarget(manifests, architecture, opts, i) && target == manifests[i]
    ensures target.digest == "" ==> forall i: nat :: !IsTarget(manifests, architecture, opts, i)
  {
    target := NO_DESCRIPTOR;
    ghost var first: Option<nat> := None;
    if opts.enableCNAMECompat && TrimSpace(opts.cnamePrefix) != "" {
      for i := 0 to |manifests|
        invariant target == NO_DESCRIPTOR && first == None
        invariant forall k :: 0 <= k < i ==> !IsCNAMEMatch(manifests[k], opts.cnamePrefix, architecture)
      {
        if IsCNAMEMatch(manifests[i], opts.cnamePrefix, architecture) {
          target := manifests[i];
          first := Some(i);
          break;
        }
      }
    }
    assert first.Some? ==> FirstCNAME(manifests, architecture, opts, first.value) && target == manifests[first.value];
    assert forall k: nat :: FirstCNAME(manifests, architecture, opts, k) ==> first == Some(k);
    if target.digest == "" {
      for i := 0 to |manifests|
        invariant target.digest == ""
        invariant forall k :: 0 <= k < i ==> !IsPlatformMatch(manifests[k], architecture)
      {
        if IsPlatformMatch(manifests[i], architecture) {
          target := manifests[i];
          assert FirstPlatform(manifests, architecture, i);
          assert target.digest != "" ==> IsTarget(manifests, architecture, opts, i);
          assert forall k: nat :: FirstPlatform(manifests, architecture, k) ==> k == i;
          return;
        }
      }
    } else {
      assert IsTarget(manifests, architecture, opts, first.value);
    }
  }

  method FindManifestByArchitecture(documents: map<string, Document>, desc: Descriptor, architecture: string,
      opts: Options)
    returns (result: Result<seq<Layer>>)
    ensures IsManifest(documents, desc, architecture, opts, result)
  {
    if desc.digest !in documents || documents[desc.digest].manifest.None? {
      return Err;
    }
    if desc.mediaType != INDEX_TYPE {
      return Ok(documents[desc.digest].manifest.value);
    }
    if documents[desc.digest].index.None? {
      return Err;
    }
    var target := Target(documents[desc.digest].index.value, architecture, opts);
    if target.digest == "" {
      return Err;
    }
    result := Nested(documents, target.digest);
  }

  /** The last layer of one of two media types decides; "" without one. */
  function LastDigest(layers: seq<Layer>, mediaType: string, older: string): string {
    if layers == [] then ""
    else
      var last := layers[|layers| - 1];
      if last.mediaType == mediaType || last.mediaType == older then last.digest
      else LastDigest(layers[..|layers| - 1], mediaType, older)
  }

  lemma {:induction false} LastDigestIs(layers: seq<Layer>, mediaType: string, older: string, i: nat)
    requires i < |layers| && (layers[i].mediaType == mediaType || layers[i].mediaType == older)
    requires forall k :: i < k < |layers| ==> layers[k].mediaType != mediaType && layers[k].mediaType != older
    ensures LastDigest(layers, mediaType, older) == layers[i].digest
  {
    if i < |layers| - 1 { LastDigestIs(layers[..|layers| - 1], mediaType, older, i); }
  }

  lemma {:induction false} LastDigestReal(layers: seq<Layer>, mediaType: string, older: string) returns (i: nat)
    requires LastDigest(layers, mediaType, older) != ""
    ensures i < |layers| && (layers[i].mediaType == mediaType || layers[i].mediaType == older)
    ensures layers[i].digest == LastDigest(layers, mediaType, older)
    ensures forall k :: i < k < |layers| ==> layers[k].mediaType != mediaType && layers[k].mediaType != older
  {
    var last := |layers| - 1;
    if layers[last].mediaType == mediaType || layers[last].mediaType == older {
      i := last;
    } else {
      i := LastDigestReal(layers[..last], mediaType, older);
    }
  }

  lemma {:induction false} NoLastDigest(layers: seq<Layer>, mediaType: string, older: string)
    requires forall l :: l in layers ==> l.mediaType != mediaType && l.mediaType != older
    ensures LastDigest(layers, mediaType, older) == ""
  {
    if layers != [] {
      assert layers[|layers| - 1] in layers;
      NoLastDigest(layers[..|layers| - 1], mediaType, older);
    }
  }

  datatype Digests = Digests(kernel: string, initrd: string, squashFS: string)

  /** The layer loop of `getLayerDigestsFromNestedManifest`. */
  method LayerDigests(layers: seq<Layer>) returns (digests: Digests)
    ensures digests.kernel ==
      LastDigest(layers, "application/vnd.ironcore.image.kernel", "application/io.gardenlinux.kernel")
    ensures digests.initrd ==
      LastDigest(layers, "application/vnd.ironcore.image.initramfs", "application/io.gardenlinux.initrd")
    ensures digests.squashFS ==
      LastDigest(layers, "application/vnd.ironcore.image.squashfs", "application/io.gardenlinux.squashfs")
  {
    digests := Digests("", "", "");
    MediaTypesDiffer();
    for i := 0 to |layers|
      invariant digests.kernel == LastDigest(layers[..i], KERNEL, KERNEL_OLD)
      invariant digests.initrd == LastDigest(layers[..i], INITRD, INITRD_OLD)
      invariant digests.squashFS == LastDigest(layers[..i], SQUASH_FS, SQUASH_FS_OLD)
    {
      var layer := layers[i];
      assert layers[..i + 1][..i] == layers[..i];
      if layer.mediaType == KERNEL {
        digests := digests.(kernel := layer.digest);
      } else if layer.mediaType == INITRD {
        digests := digests.(initrd := layer.digest);
      } else if layer.mediaType == SQUASH_FS {
        digests := digests.(squashFS := layer.digest);
      } else if layer.mediaType == KERNEL_OLD {
        digests := digests.(kernel := layer.digest);
      } else if layer.mediaType == INITRD_OLD {
        digests := digests.(initrd := layer.digest);
      } else if layer.mediaType == SQUASH_FS_OLD {
        digests := digests.(squashFS := layer.digest);
      }
    }
    assert layers[..|layers|] == layers;
  }

  lemma MediaTypesDiffer()
    ensures KERNEL != INITRD && KERNEL != SQUASH_FS && INITRD != SQUASH_FS
    ensures KERNEL_OLD != INITRD_OLD && KERNEL_OLD != SQUASH_FS_OLD && INITRD_OLD != SQUASH_FS_OLD
    ensures KERNEL != INITRD_OLD && KERNEL != SQUASH_FS_OLD && INITRD != KERNEL_OLD
    ensures INITRD != SQUASH_FS_OLD && SQUASH_FS != KERNEL_OLD && SQUASH_FS != INITRD_OLD
  {
    assert KERNEL[31] == 'k' && INITRD[31] == 'i' && SQUASH_FS[31] == 's';
    assert KERNEL_OLD[27] == 'k' && INITRD_OLD[27] == 'i' && SQUASH_FS_OLD[27] == 's';
    assert KERNEL[12] == 'v' && INITRD[12] == 'v' && SQUASH_FS[12] == 'v';
    assert KERNEL_OLD[12] == 'i' && INITRD_OLD[12] == 'i' && SQUASH_FS_OLD[12] == 'i';
  }

  ghost predicate FirstUKI(layers: seq<Layer>, i: nat) {
    && i < |layers| && layers[i].mediaType == "application/vnd.ironcore.image.uki"
    && forall k :: 0 <= k < i ==> layers[k].mediaType != "application/vnd.ironcore.image.uki"
  }

  /** The layer loop of both `getUKIDigestFromNestedManifest`: the first UKI layer. */
  method UKIDigest(layers: seq<Layer>) returns (digest: Option<string>)
    ensures digest.Some? ==> exists i: nat :: FirstUKI(layers, i) && layers[i].digest == digest.value
    ensures digest.None? ==>
      forall i :: 0 <= i < |layers| ==> layers[i].mediaType != "application/vnd.ironcore.image.uki"
  {
    for i := 0 to |layers|
      invariant forall k :: 0 <= k < i ==> layers[k].mediaType != UKI
    {
      if layers[i].mediaType == UKI {
        assert FirstUKI(layers, i);
        return Some(layers[i].digest);
      }
    }
    return None;
  }
}
