/**
 UKI URLs: printed by the HTTP reconciler (serverbootconfiguration_http_controller.go) and by
 `ConstructUKIURLFromOCI` (internal/uki/oci.go), read by `parseHttpBootImagePath`
 (server/imageproxyserver.go).
 */
module UkiPath {
  import opened Wrappers
  import opened Text
  import opened Reference
  import opened ImageUrl

  const HTTP_BOOT := "/httpboot/"
  const SHA256 := "sha256:"
  const SHA256_DASH := "sha256-"
  const EFI := ".efi"

  function LastSegment(digest: string): string {
    SHA256_DASH + TrimPrefix(digest, SHA256) + EFI
  }

  /** Both URL builders. */
  function UkiURL(imageServerURL: string, image: string, digest: string): string {
    imageServerURL + "/" + image + "/" + LastSegment(digest)
  }

  /** `parseHttpBootImagePath` */
  function ParseHttpBootImagePath(path: string): Result<Details> {
    var segments := Split(TrimPrefix(path, HTTP_BOOT), '/');
    if |segments| < 2 then Err
    else
      var image := Join(segments[..|segments| - 1], '/');
      var registry := ExtractRegistryDomain(image);
      var last := TrimSuffix(segments[|segments| - 1], EFI);
      if registry.None? || !HasPrefix(last, SHA256_DASH) then Err
      else
        Ok(Details(image, registry.value, ParseNormalized(image).value.path, SHA256
            + TrimPrefix(last, SHA256_DASH), ""))
  }

  // ----- The last slash -------------------------------------------------------------------------------------

  lemma {:induction false} JoinLast(parts: seq<string>, last: string, sep: char)
    requires parts != []
    ensures Join(parts + [last], sep) == Join(parts, sep) + [sep] + last
  {
    var all := parts + [last];
    if |parts| == 1 {
      assert all == [parts[0], last] && all[1..] == [last];
    } else {
      JoinLast(parts[1..], last, sep);
      assert all[1..] == parts[1..] + [last];
      Regroup(parts[0], sep, Join(parts[1..], sep), last);
    }
  }

  lemma JoinFront(parts: seq<string>, sep: char)
    requires |parts| >= 2
    ensures Join(parts, sep) == Join(parts[..|parts| - 1], sep) + [sep] + parts[|parts| - 1]
  {
    assert parts == parts[..|parts| - 1] + [parts[|parts| - 1]];
    JoinLast(parts[..|parts| - 1], parts[|parts| - 1], sep);
  }

  /** Splitting at slashes and joining all but the last part cuts at the last slash. */
  lemma SplitLast(s: string)
    requires |Split(s, '/')| >= 2
    ensures var parts := Split(s, '/');
      s == Join(parts[..|parts| - 1], '/') + "/" + parts[|parts| - 1] && '/' !in parts[|parts| - 1]
  {
    JoinFront(Split(s, '/'), '/');
    JoinSplit(s, '/');
    SplitFree(s, '/');
  }

  lemma SplitLastPrinted(image: string, last: string)
    requires '/' !in last
    ensures var parts := Split(image + "/" + last, '/');
      |parts| >= 2 && Join(parts[..|parts| - 1], '/') == image && parts[|parts| - 1] == last
  {
    SplitConcat(image, '/', last);
    JoinSplit(image, '/');
    var parts := Split(image, '/') + [last];
    assert Split(last, '/') == [last];
    assert parts[..|parts| - 1] == Split(image, '/');
  }

  lemma SameLast(a: string, x: string, b: string, y: string)
    requires a + "/" + x == b + "/" + y && a == b
    ensures x == y
  {
    assert (a + "/" + x)[|a| + 1..] == x;
    assert (b + "/" + y)[|b| + 1..] == y;
  }

  lemma SegmentSlash(digest: string)
    ensures '/' in LastSegment(digest) <==> '/' in TrimPrefix(digest, SHA256)
  {
    assert '/' !in SHA256_DASH && '/' !in EFI;
  }

  lemma TrimSegment(digest: string)
    ensures var last := TrimSuffix(LastSegment(digest), EFI);
      HasPrefix(last, SHA256_DASH) && TrimPrefix(last, SHA256_DASH) == TrimPrefix(digest, SHA256)
  {
    SuffixTrimmed(SHA256_DASH + TrimPrefix(digest, SHA256), EFI);
    PrefixTrimmed(SHA256_DASH, TrimPrefix(digest, SHA256));
  }

  lemma SuffixTrimmed(s: string, suffix: string)
    ensures TrimSuffix(s + suffix, suffix) == s
  {
  }

  lemma PrefixTrimmed(prefix: string, s: string)
    ensures HasPrefix(prefix + s, prefix) && TrimPrefix(prefix + s, prefix) == s
  {
  }

  // ----- The theorem -----------------------------------------------------------------------------------------

  lemma PrintedPath(image: string, digest: string)
    ensures TrimPrefix(HTTP_BOOT + image + "/" + LastSegment(digest), HTTP_BOOT) == image + "/" + LastSegment(digest)
  {
    var rest := image + "/" + LastSegment(digest);
    assert HTTP_BOOT + image + "/" + LastSegment(digest) == HTTP_BOOT + rest;
    PrefixTrimmed(HTTP_BOOT, rest);
  }

  lemma PrefixKept(digest: string)
    ensures SHA256 + TrimPrefix(digest, SHA256) == digest <==> HasPrefix(digest, SHA256)
  {
    if HasPrefix(digest, SHA256) {
      assert digest == digest[..|SHA256|] + digest[|SHA256|..];
    } else {
      assert |SHA256| == 7;
      assert |SHA256 + digest| != |digest|;
    }
  }

  lemma SlashInDigest(digest: string)
    requires HasPrefix(digest, SHA256)
    ensures '/' in digest <==> '/' in TrimPrefix(digest, SHA256)
  {
    PrefixKept(digest);
    Sha256Slash();
  }

  lemma Sha256Slash()
    ensures '/' !in SHA256
  {
  }

  predicate Names(result: Result<Details>, image: string, digest: string) {
    result.Ok? && result.value.image == image && result.value.layerDigest == digest
  }

  lemma SlashFreePath(image: string, digest: string)
    requires '/' !in TrimPrefix(digest, SHA256)
    ensures Names(ParseHttpBootImagePath(HTTP_BOOT + image + "/" + LastSegment(digest)), image, digest) <==>
      ExtractRegistryDomain(image).Some? && HasPrefix(digest, SHA256)
  {
    PrintedPath(image, digest);
    SegmentSlash(digest);
    SplitLastPrinted(image, LastSegment(digest));
    TrimSegment(digest);
    PrefixKept(digest);
  }

  ghost predicate HasSlash(s: string) {
    '/' in s
  }

  lemma NotLast(a: string, x: string, b: string, y: string)
    requires a + "/" + x == b + "/" + y && HasSlash(x) && !HasSlash(y)
    ensures a != b
  {
    if a == b { SameLast(a, x, b, y); }
  }

  lemma SplitElsewhere(image: string, last: string, parts: seq<string>)
    requires HasSlash(last) && parts == Split(image + "/" + last, '/') && |parts| >= 2
    ensures Join(parts[..|parts| - 1], '/') != image
  {
    SplitLast(image + "/" + last);
    NotLast(image, last, Join(parts[..|parts| - 1], '/'), parts[|parts| - 1]);
  }

  /** A path whose printed last segment has a slash does not say the image. */
  lemma ElsewhereSays(path: string, image: string, last: string, digest: string)
    requires TrimPrefix(path, HTTP_BOOT) == image + "/" + last && HasSlash(last)
    ensures !Names(ParseHttpBootImagePath(path), image, digest)
  {
    var parts := Split(image + "/" + last, '/');
    if |parts| >= 2 { SplitElsewhere(image, last, parts); }
  }

  lemma SlashedPath(image: string, digest: string)
    requires HasSlash(TrimPrefix(digest, SHA256))
    ensures !Names(ParseHttpBootImagePath(HTTP_BOOT + image + "/" + LastSegment(digest)), image, digest)
  {
    PrintedPath(image, digest);
    SegmentSlash(digest);
    ElsewhereSays(HTTP_BOOT + image + "/" + LastSegment(digest), image, LastSegment(digest), digest);
  }

  /** The proxy reads image and digest back from the path of a UKI URL exactly if the image is a valid
      reference and the digest is a sha256 digest without a slash. */
  lemma UkiPathRoundTripsIff(image: string, digest: string)
    ensures Names(ParseHttpBootImagePath(HTTP_BOOT + image + "/" + LastSegment(digest)), image, digest) <==>
      ExtractRegistryDomain(image).Some? && HasPrefix(digest, SHA256) && '/' !in digest
  {
    if HasPrefix(digest, SHA256) { SlashInDigest(digest); }
    if '/' in TrimPrefix(digest, SHA256) {
      SlashedPath(image, digest);
    } else {
      SlashFreePath(image, digest);
    }
  }

  /** The URL and the path of a sha256 digest, written out. */
  lemma UkiURLIs(imageServerURL: string, image: string, hex: string)
    ensures UkiURL(imageServerURL, image, "sha256:" + hex) ==
      imageServerURL + "/" + image + "/" + ("sha256-" + hex + ".efi")
  {
    PrefixTrimmed(SHA256, hex);
  }

  lemma UkiPathSays(image: string, hex: string)
    requires ExtractRegistryDomain(image).Some? && '/' !in hex
    ensures ParseHttpBootImagePath("/httpboot/" + image + "/" + ("sha256-" + hex + ".efi")) ==
      Ok(Details(image, ExtractRegistryDomain(image).value, ParseNormalized(image).value.path, "sha256:" + hex, ""))
  {
    var digest := SHA256 + hex;
    PrefixTrimmed(SHA256, hex);
    PrintedPath(image, digest);
    SegmentSlash(digest);
    SplitLastPrinted(image, LastSegment(digest));
    TrimSegment(digest);
  }
}
