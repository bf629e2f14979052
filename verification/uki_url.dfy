/**
 UKI URLs as requests: the builders put the digest into the URL as it is, and the proxy sees the
 decoded path of the URL.
 */
module UkiUrl {
  import opened Wrappers
  import opened Text
  import opened Reference
  import opened ReferenceProofs
  import opened ReferenceNames
  import opened ImageUrl
  import opened UkiPath

  // ----- From a URL to the path in the request ----------------------------------------------------------------

  /** Characters that can stand in a request line: no space, no control character. */
  predicate IsURLChar(c: char) { c > ' ' && c != '\U{7f}' }

  predicate URLChars(s: string) { forall i :: 0 <= i < |s| ==> IsURLChar(s[i]) }

  /** A URL up to its query and its fragment. */
  function Stem(url: string): string {
    Cut(Cut(url, '#').before, '?').before
  }

  /** From the first slash behind `scheme://host`. */
  function RawPath(url: string): string {
    "/" + Cut(BehindScheme(Stem(url)), '/').after
  }

  function BehindScheme(url: string): string {
    TrimPrefix(Cut(url, ':').after, "//")
  }

  /** The path of a request for a URL, if it can be sent and decoded. */
  function RequestPath(url: string): Option<string> {
    if URLChars(url) then Decode(RawPath(url), false) else None
  }

  function Request(url: string): Result<Details> {
    var path := RequestPath(url);
    if path.None? then Err else ParseHttpBootImagePath(path.value)
  }

  predicate IsFree(s: string) { '#' !in s && '?' !in s }

  predicate IsServer(scheme: string, host: string) {
    URLChars(scheme) && IsFree(scheme) && ':' !in scheme && URLChars(host) && IsFree(host) && '/' !in host
  }

  function Server(scheme: string, host: string): string {
    scheme + "://" + host
  }

  // ----- Cutting ------------------------------------------------------------------------------------------------

  lemma StemFree(front: string, s: string)
    requires IsFree(front)
    ensures Stem(front + s) == front + Stem(s)
  {
    CutFront(front, s, '#');
    CutFront(front, Cut(s, '#').before, '?');
  }

  lemma CutFront(front: string, s: string, c: char)
    requires c !in front
    ensures Cut(front + s, c).before == front + Cut(s, c).before
  {
    var cut := Cut(s, c);
    if cut.found {
      assert front + (cut.before + [c] + cut.after) == front + cut.before + [c] + cut.after;
      CutAt(front + cut.before, c, cut.after);
    } else {
      CutNothing(front + s, c);
    }
  }

  lemma CutBefore(s: string, c: char, i: nat)
    requires i < |s| && s[i] == c
    ensures |Cut(s, c).before| <= i && Cut(s, c).before <= s
  {
    var cut := Cut(s, c);
    assert forall k :: 0 <= k < |cut.before| ==> s[k] == cut.before[k];
  }

  lemma StemBefore(s: string, i: nat)
    requires i < |s| && (s[i] == '#' || s[i] == '?')
    ensures |Stem(s)| <= i
  {
    var noFragment := Cut(s, '#').before;
    if s[i] == '#' {
      CutBefore(s, '#', i);
    } else if |noFragment| > i {
      assert noFragment[i] == s[i];
      CutBefore(noFragment, '?', i);
    }
  }

  lemma SchemeCut(scheme: string, rest: string)
    requires ':' !in scheme
    ensures BehindScheme(scheme + "://" + rest) == rest
  {
    assert scheme + "://" + rest == scheme + [':'] + ("//" + rest);
    CutAt(scheme, ':', "//" + rest);
    PrefixTrimmed("//", rest);
  }

  lemma RawPathPrinted(scheme: string, host: string, front: string, s: string)
    requires IsServer(scheme, host) && IsFree(front)
    ensures RawPath(Server(scheme, host) + "/" + front + s) == "/" + front + Stem(s)
  {
    ServerFree(scheme, host, front);
    StemFree(Server(scheme, host) + "/" + front, s);
    ServerParts(scheme, host, front, Stem(s));
    SchemeCut(scheme, host + ['/'] + (front + Stem(s)));
    CutAt(host, '/', front + Stem(s));
    PathParts(front, Stem(s));
  }

  lemma ServerParts(scheme: string, host: string, front: string, s: string)
    ensures Server(scheme, host) + "/" + front + s == scheme + "://" + (host + ['/'] + (front + s))
  {
  }

  lemma PathParts(front: string, s: string)
    ensures "/" + (front + s) == "/" + front + s
  {
  }

  lemma ServerFree(scheme: string, host: string, front: string)
    requires IsServer(scheme, host) && IsFree(front)
    ensures IsFree(Server(scheme, host) + "/" + front)
  {
    assert IsFree("://") && IsFree("/");
  }

  // ----- Decoding -----------------------------------------------------------------------------------------------

  lemma {:induction false} DecodeFront(front: string, s: string)
    requires '%' !in front
    ensures Decode(front + s, false) ==
      if Decode(s, false).None? then None else Some(front + Decode(s, false).value)
  {
    if front == "" {
      assert front + s == s;
      if Decode(s, false).Some? { assert "" + Decode(s, false).value == Decode(s, false).value; }
    } else {
      assert (front + s)[1..] == front[1..] + s;
      DecodeFront(front[1..], s);
      if Decode(s, false).Some? {
        assert [front[0]] + (front[1..] + Decode(s, false).value) == front + Decode(s, false).value;
      }
    }
  }

  lemma DecodePlain(s: string)
    requires '%' !in s
    ensures Decode(s, false) == Some(s)
  {
    DecodeFront(s, "");
    assert s + "" == s;
  }

  lemma {:induction false} DecodeShrinks(s: string)
    ensures Decode(s, false).Some? ==>
      |Decode(s, false).value| <= |s| && ('%' in s ==> |Decode(s, false).value| < |s|)
    decreases |s|
  {
    if s != "" {
      if s[0] == '%' {
        if |s| >= 3 { DecodeShrinks(s[3..]); }
      } else {
        DecodeShrinks(s[1..]);
        assert s == [s[0]] + s[1..];
      }
    }
  }

  /** A suffix without hexadecimal digits in its first two places is not swallowed. */
  lemma {:induction false} DecodeBehind(s: string, suffix: string)
    requires |suffix| >= 2 && '%' !in suffix && !IsHex(suffix[0])
    ensures Decode(s + suffix, false).Some? ==>
      Decode(s, false).Some? && Decode(s + suffix, false).value == Decode(s, false).value + suffix
    decreases |s|
  {
    if s == "" {
      assert s + suffix == suffix;
      DecodePlain(suffix);
      assert "" + suffix == suffix;
    } else if s[0] != '%' {
      assert (s + suffix)[1..] == s[1..] + suffix;
      DecodeBehind(s[1..], suffix);
      DecodeAssoc([s[0]], s[1..], suffix);
    } else if |s| >= 3 {
      assert (s + suffix)[3..] == s[3..] + suffix;
      DecodeBehind(s[3..], suffix);
    } else {
      assert (s + suffix)[|s|] == suffix[0];
    }
  }

  lemma DecodeAssoc(a: string, b: string, suffix: string)
    ensures Decode(b, false).Some? ==> a + (Decode(b, false).value + suffix) == a + Decode(b, false).value + suffix
  {
  }

  // ----- What a request can say -------------------------------------------------------------------------------------

  lemma SayingIsValid(path: string, image: string, digest: string)
    ensures Names(ParseHttpBootImagePath(path), image, digest) ==>
      ExtractRegistryDomain(image).Some? && HasPrefix(digest, SHA256)
  {
  }

  lemma RequestIsValid(url: string, image: string, digest: string)
    ensures Names(Request(url), image, digest) ==> ExtractRegistryDomain(image).Some? && HasPrefix(digest, SHA256)
  {
    var path := RequestPath(url);
    if path.Some? { SayingIsValid(path.value, image, digest); }
  }

  lemma SameFront(parts: seq<string>, image: string, last: string)
    requires |parts| >= 2 && image + "/" + last == Join(parts[..|parts| - 1], '/') + "/" + parts[|parts| - 1]
    ensures Join(parts[..|parts| - 1], '/') == image ==> parts[|parts| - 1] == last
  {
    var front := Join(parts[..|parts| - 1], '/');
    if front == image { SameLast(image, last, front, parts[|parts| - 1]); }
  }

  lemma LastOf(s: string, image: string, last: string, parts: seq<string>)
    requires s == image + "/" + last && parts == Split(s, '/') && |parts| >= 2
    ensures Join(parts[..|parts| - 1], '/') == image ==> parts[|parts| - 1] == last
  {
    SplitLast(s);
    SameFront(parts, image, last);
  }

  /** A last segment that says `digest` is as long, up to `.efi`. */
  lemma SegmentLength(image: string, last: string, digest: string)
    requires Names(ParseHttpBootImagePath(HTTP_BOOT + (image + "/" + last)), image, digest)
    ensures |digest| == |TrimSuffix(last, EFI)|
  {
    PrefixTrimmed(HTTP_BOOT, image + "/" + last);
    var parts := Split(image + "/" + last, '/');
    if |parts| >= 2 { LastOf(image + "/" + last, image, last, parts); }
    DashTrimmed(TrimSuffix(last, EFI));
  }

  lemma DashTrimmed(last: string)
    ensures HasPrefix(last, SHA256_DASH) ==> |SHA256 + TrimPrefix(last, SHA256_DASH)| == |last|
  {
    Lengths();
  }

  lemma Lengths()
    ensures |SHA256_DASH| == 7 && |SHA256| == 7 && |EFI| == 4
  {
  }

  lemma ConstantsFree()
    ensures IsFree(SHA256) && IsFree(SHA256_DASH) && IsFree(EFI)
    ensures '%' !in SHA256 && '%' !in SHA256_DASH && '%' !in EFI && '%' !in HTTP_BOOT
  {
  }

  lemma ConstantsSendable()
    ensures URLChars(SHA256) && URLChars(SHA256_DASH) && URLChars(EFI) && URLChars("/httpboot/") && URLChars("/") &&
        URLChars("://")
  {
  }

  lemma RefCharFree(c: char)
    requires IsRefChar(c)
    ensures IsURLChar(c) && c != '#' && c != '?' && c != '%'
  {
  }

  lemma RefFree(s: string)
    requires RefChars(s)
    ensures URLChars(s) && IsFree(s) && '%' !in s
  {
    forall i | 0 <= i < |s| ensures IsURLChar(s[i]) && s[i] != '#' && s[i] != '?' && s[i] != '%' { RefCharFree(s[i]); }
  }

  lemma ImageFree(image: string)
    requires ExtractRegistryDomain(image).Some?
    ensures URLChars(image) && IsFree(image) && '%' !in image
  {
    AcceptedChars(image);
    RefFree(image);
  }

  // ----- The theorem -------------------------------------------------------------------------------------------------

  /** The digest can stand in a path as it is. */
  predicate IsPathDigest(digest: string) {
    HasPrefix(digest, SHA256) && URLChars(digest) && IsFree(digest) && '%' !in digest && '/' !in digest
  }

  lemma URLCharsConcat(a: string, b: string)
    ensures URLChars(a + b) <==> URLChars(a) && URLChars(b)
  {
    assert forall i :: 0 <= i < |a| ==> a[i] == (a + b)[i];
    if URLChars(a + b) {
      forall i | 0 <= i < |b| ensures IsURLChar(b[i]) { assert b[i] == (a + b)[|a| + i]; }
    }
  }

  lemma DigestSplits(digest: string)
    requires HasPrefix(digest, SHA256)
    ensures digest == SHA256 + TrimPrefix(digest, SHA256)
  {
    PrefixKept(digest);
  }

  function Hex(digest: string): string {
    TrimPrefix(digest, SHA256)
  }

  lemma Sendable(server: string, image: string, digest: string)
    requires URLChars(server) && URLChars(image) && HasPrefix(digest, SHA256)
    ensures URLChars(server + "/" + ("httpboot/" + image + "/") + LastSegment(digest)) <==> URLChars(digest)
  {
    ConstantsSendable();
    DigestSplits(digest);
    URLCharsConcat(SHA256, Hex(digest));
    URLCharsConcat(SHA256_DASH, Hex(digest));
    URLCharsConcat(SHA256_DASH + Hex(digest), EFI);
    FrontSendable(server, image);
    URLCharsConcat(server + "/" + ("httpboot/" + image + "/"), LastSegment(digest));
  }

  lemma FrontSendable(server: string, image: string)
    requires URLChars(server) && URLChars(image)
    ensures URLChars(server + "/" + ("httpboot/" + image + "/"))
  {
    assert URLChars("httpboot/") && URLChars("/");
    URLCharsConcat("httpboot/", image);
    URLCharsConcat("httpboot/" + image, "/");
    URLCharsConcat(server, "/");
    URLCharsConcat(server + "/", "httpboot/" + image + "/");
  }

  lemma ServerSendable(scheme: string, host: string)
    requires IsServer(scheme, host)
    ensures URLChars(Server(scheme, host))
  {
    assert URLChars("://");
    URLCharsConcat(scheme, "://");
    URLCharsConcat(scheme + "://", host);
  }

  lemma FrontFree(image: string)
    requires IsFree(image) && '%' !in image
    ensures IsFree("httpboot/" + image + "/") && '%' !in "/" + ("httpboot/" + image + "/")
  {
    assert IsFree("httpboot/") && IsFree("/") && '%' !in "httpboot/" && '%' !in "/";
  }

  /** The request for a printed URL with a valid image: the last segment is cut and decoded. */
  lemma RequestIs(scheme: string, host: string, image: string, last: string)
    requires IsServer(scheme, host) && IsFree(image) && '%' !in image
    ensures var url := Server(scheme, host) + "/" + ("httpboot/" + image + "/") + last;
      var r := Decode(Stem(last), false);
      Request(url) ==
        if !URLChars(url) || r.None? then Err else ParseHttpBootImagePath(HTTP_BOOT + (image + "/" + r.value))
  {
    var front := "httpboot/" + image + "/";
    FrontFree(image);
    RawPathPrinted(scheme, host, front, last);
    DecodeFront("/" + front, Stem(last));
    var r := Decode(Stem(last), false);
    if r.Some? {
      BootPath(image, r.value);
    }
  }

  lemma BootPath(image: string, last: string)
    ensures "/" + ("httpboot/" + image + "/") + last == HTTP_BOOT + (image + "/" + last)
  {
    assert HTTP_BOOT == "/" + "httpboot/";
  }

  lemma CutPosition(digest: string) returns (i: nat)
    requires HasPrefix(digest, SHA256) && !IsFree(digest)
    ensures 7 <= i < |digest| && (digest[i] == '#' || digest[i] == '?')
  {
    ConstantsFree();
    Lengths();
    var c := if '#' in digest then '#' else '?';
    i :| 0 <= i < |digest| && digest[i] == c;
    assert forall k :: 0 <= k < 7 ==> digest[k] == SHA256[k];
  }

  /** A query or a fragment in the digest cuts it short. */
  lemma CutDigestLost(image: string, digest: string, r: string)
    requires HasPrefix(digest, SHA256) && !IsFree(digest) && Decode(Stem(LastSegment(digest)), false) == Some(r)
    ensures !Names(ParseHttpBootImagePath(HTTP_BOOT + (image + "/" + r)), image, digest)
  {
    var i := CutPosition(digest);
    SegmentAt(digest, i);
    StemBefore(LastSegment(digest), i);
    DecodeShrinks(Stem(LastSegment(digest)));
    assert |TrimSuffix(r, EFI)| <= |r| < |digest|;
    if Names(ParseHttpBootImagePath(HTTP_BOOT + (image + "/" + r)), image, digest) { SegmentLength(image, r, digest); }
  }

  lemma SegmentAt(digest: string, i: nat)
    requires HasPrefix(digest, SHA256) && 7 <= i < |digest|
    ensures i < |LastSegment(digest)| && LastSegment(digest)[i] == digest[i]
  {
    Lengths();
    DigestSplits(digest);
    assert digest[i] == Hex(digest)[i - 7];
  }

  /** A percent sign in the digest is decoded away. */
  lemma EscapedDigestLost(image: string, digest: string, r: string)
    requires HasPrefix(digest, SHA256) && '%' in digest && Decode(LastSegment(digest), false) == Some(r)
    ensures !Names(ParseHttpBootImagePath(HTTP_BOOT + (image + "/" + r)), image, digest)
  {
    ConstantsFree();
    DigestSplits(digest);
    Lengths();
    var head := SHA256_DASH + Hex(digest);
    DecodeBehind(head, EFI);
    DecodeShrinks(head);
    assert '%' in head;
    SuffixTrimmed(Decode(head, false).value, EFI);
    if Names(ParseHttpBootImagePath(HTTP_BOOT + (image + "/" + r)), image, digest) { SegmentLength(image, r, digest); }
  }

  lemma StemWhole(s: string)
    requires IsFree(s)
    ensures Stem(s) == s
  {
  }

  lemma SegmentFree(digest: string)
    requires HasPrefix(digest, SHA256)
    ensures IsFree(digest) <==> IsFree(LastSegment(digest))
    ensures '%' in digest <==> '%' in LastSegment(digest)
  {
    ConstantsFree();
    DigestSplits(digest);
    assert LastSegment(digest) == SHA256_DASH + Hex(digest) + EFI;
  }

  /** The last segment of a sendable URL, with a valid image and a sha256 digest. */
  lemma LastSegmentSays(image: string, digest: string)
    requires HasPrefix(digest, SHA256) && URLChars(digest) && ExtractRegistryDomain(image).Some?
    ensures var r := Decode(Stem(LastSegment(digest)), false);
      (r.Some? && Names(ParseHttpBootImagePath(HTTP_BOOT + (image + "/" + r.value)), image, digest)) <==>
          IsPathDigest(digest)
  {
    var last := LastSegment(digest);
    var r := Decode(Stem(last), false);
    SegmentFree(digest);
    if !IsFree(digest) {
      if r.Some? { CutDigestLost(image, digest, r.value); }
    } else {
      StemWhole(last);
      if '%' in digest {
        if r.Some? { EscapedDigestLost(image, digest, r.value); }
      } else {
        DecodePlain(last);
        PlainDigestSays(image, digest);
      }
    }
  }

  lemma PlainDigestSays(image: string, digest: string)
    requires HasPrefix(digest, SHA256) && ExtractRegistryDomain(image).Some?
    ensures Names(ParseHttpBootImagePath(HTTP_BOOT + (image + "/" + LastSegment(digest))), image, digest) <==>
        '/' !in digest
  {
    UkiPathRoundTripsIff(image, digest);
    PathGroups(image, LastSegment(digest));
  }

  lemma PathGroups(image: string, last: string)
    ensures HTTP_BOOT + image + "/" + last == HTTP_BOOT + (image + "/" + last)
  {
  }

  /** A valid image and a sha256 digest: the request says them exactly if the digest can stand in a path. */
  lemma ValidRequest(scheme: string, host: string, image: string, digest: string)
    requires IsServer(scheme, host) && ExtractRegistryDomain(image).Some? && HasPrefix(digest, SHA256)
    ensures
      var url := Server(scheme, host) + "/" + ("httpboot/" + image + "/") + LastSegment(digest);
      Names(Request(url), image, digest) <==> IsPathDigest(digest)
  {
    ImageFree(image);
    RequestIs(scheme, host, image, LastSegment(digest));
    ServerSendable(scheme, host);
    Sendable(Server(scheme, host), image, digest);
    if URLChars(digest) { LastSegmentSays(image, digest); }
  }

  lemma URLShape(server: string, image: string, digest: string)
    ensures UkiURL(server + "/httpboot", image, digest)
        == server + "/" + ("httpboot/" + image + "/") + LastSegment(digest)
  {
    assert "/httpboot" + "/" == "/" + "httpboot/";
  }

  /** The proxy reads image and digest back from a UKI URL exactly if the image is a valid reference and the
      digest is a sha256 digest that can stand in a path: no `/`, `?`, `#` or `%`, no space and no control
      character. */
  lemma UkiURLRoundTripsIff(scheme: string, host: string, image: string, digest: string)
    requires IsServer(scheme, host)
    ensures Names(Request(UkiURL(Server(scheme, host) + "/httpboot", image, digest)), image, digest) <==>
      ExtractRegistryDomain(image).Some? && IsPathDigest(digest)
  {
    var url := UkiURL(Server(scheme, host) + "/httpboot", image, digest);
    URLShape(Server(scheme, host), image, digest);
    if ExtractRegistryDomain(image).Some? && HasPrefix(digest, SHA256) {
      ValidRequest(scheme, host, image, digest);
    } else {
      RequestIsValid(url, image, digest);
    }
  }

  /** The path in an image URL is `/image`. */
  lemma ImagePath(scheme: string, host: string, name: string, version: string, digest: string)
    requires IsServer(scheme, host) && Bytes(name) && Bytes(version) && Bytes(digest)
    ensures RawPath(BuildImageURL(Server(scheme, host), name, version, digest)) == "/image"
  {
    var suffix := "?" + Encode(Params(name, version, digest));
    ImageFront(Server(scheme, host), suffix);
    RawPathPrinted(scheme, host, "image", suffix);
    StemBefore(suffix, 0);
    assert Stem(suffix) == "";
  }

  lemma ImageFront(server: string, suffix: string)
    requires suffix != "" && suffix[0] == '?'
    ensures IsFree("image")
    ensures server + "/image?" + suffix[1..] == server + "/" + "image" + suffix
    ensures "/" + "image" + "" == "/image"
  {
  }
}
