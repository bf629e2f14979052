/**
 Image URLs: printed by `buildImageURL` (internal/controller/serverbootconfig_helpers.go), read by
 `parseImageURL` (server/imageproxyserver.go).  In between lie Go's form encoding, section 2.1 of
 RFC 3986 with `+` for a space, and form decoding.  A character stands for one byte.
 */
module ImageUrl {
  import opened Wrappers
  import opened Text
  import opened Reference

  // ----- Form encoding ------------------------------------------------------------------------------------

  predicate IsByte(c: char) { c as int < 256 }

  ghost predicate Bytes(s: string) { forall i :: 0 <= i < |s| ==> IsByte(s[i]) }

  predicate IsUnreserved(c: char) {
    IsAlnum(c) || c == '-' || c == '_' || c == '.' || c == '~'
  }

  function HexDigit(n: nat): char
    requires n < 16
  {
    if n < 10 then '0' + n as char else 'A' + (n - 10) as char
  }

  function HexValue(c: char): (n: nat)
    requires IsHex(c)
    ensures n < 16
  {
    if IsDigit(c) then (c - '0') as int
    else if 'a' <= c <= 'f' then (c - 'a') as int + 10
    else (c - 'A') as int + 10
  }

  function EscapeChar(c: char): string
    requires IsByte(c)
  {
    if IsUnreserved(c) then [c]
    else if c == ' ' then "+"
    else ['%', HexDigit(c as int / 16), HexDigit(c as int % 16)]
  }

  /** `url.QueryEscape` */
  function Escape(s: string): string
    requires Bytes(s)
  {
    if s == "" then "" else EscapeChar(s[0]) + Escape(s[1..])
  }

  /** Go's `unescape`, where only a query turns `+` into a space: fails on a `%` without two hexadecimal
      digits. */
  function Decode(s: string, plusIsSpace: bool): Option<string>
    decreases |s|
  {
    if s == "" then Some("")
    else if s[0] == '%' then
      if |s| < 3 || !IsHex(s[1]) || !IsHex(s[2]) then None
      else Prepend((16 * HexValue(s[1]) + HexValue(s[2])) as char, Decode(s[3..], plusIsSpace))
    else Prepend(if s[0] == '+' && plusIsSpace then ' ' else s[0], Decode(s[1..], plusIsSpace))
  }

  /** `url.QueryUnescape` */
  function Unescape(s: string): Option<string> {
    Decode(s, true)
  }

  function Prepend(c: char, rest: Option<string>): Option<string> {
    if rest.None? then None else Some([c] + rest.value)
  }

  datatype Pair = Pair(key: string, value: string)

  ghost predicate BytePair(p: Pair) { Bytes(p.key) && Bytes(p.value) }

  function Setting(p: Pair): string
    requires BytePair(p)
  {
    Escape(p.key) + "=" + Escape(p.value)
  }

  /** `Values.Encode` of values with their keys in order */
  function Encode(pairs: seq<Pair>): string
    requires forall p :: p in pairs ==> BytePair(p)
  {
    if pairs == [] then ""
    else if |pairs| == 1 then Setting(pairs[0])
    else Setting(pairs[0]) + "&" + Encode(pairs[1..])
  }

  /** Settings with a semicolon, or not decodable, are skipped. */
  function ParseSetting(s: string): seq<Pair> {
    var cut := Cut(s, '=');
    var key, value := Unescape(cut.before), Unescape(cut.after);
    if s == "" || ';' in s || key.None? || value.None? then [] else [Pair(key.value, value.value)]
  }

  /** `URL.Query` */
  function ParseQuery(query: string): seq<Pair>
    decreases |query|
  {
    if query == "" then []
    else
      var cut := Cut(query, '&');
      ParseSetting(cut.before) + ParseQuery(cut.after)
  }

  /** `Values.Get`: the first value of a key, or "". */
  function Get(pairs: seq<Pair>, key: string): string {
    if pairs == [] then "" else if pairs[0].key == key then pairs[0].value else Get(pairs[1..], key)
  }

  // ----- Image URLs -----------------------------------------------------------------------------------------

  const IMAGE_KEY := "imageName"
  const LAYER_DIGEST_KEY := "layerDigest"
  const VERSION_KEY := "version"

  /** `buildImageURL` */
  function BuildImageURL(serviceURL: string, imageName: string, imageVersion: string, layerDigest: string): string
    requires Bytes(imageName) && Bytes(imageVersion) && Bytes(layerDigest)
  {
    serviceURL + "/image?" + Encode(Params(imageName, imageVersion, layerDigest))
  }

  function Params(imageName: string, imageVersion: string, layerDigest: string): (pairs: seq<Pair>)
    requires Bytes(imageName) && Bytes(imageVersion) && Bytes(layerDigest)
    ensures forall p :: p in pairs ==> BytePair(p)
  {
    [Pair(IMAGE_KEY, imageName), Pair(LAYER_DIGEST_KEY, layerDigest), Pair(VERSION_KEY, imageVersion)]
  }

  /** The query of a URL: from the first question mark to a fragment. */
  function QueryOf(url: string): string {
    Cut(Cut(url, '#').before, '?').after
  }

  datatype Details = Details(image: string, registry: string, repository: string, layerDigest: string, version: string)

  /** `parseImageURL` */
  function ParseImageURL(query: seq<Pair>): Result<Details> {
    var name, digest, version := Get(query, IMAGE_KEY), Get(query, LAYER_DIGEST_KEY), Get(query, VERSION_KEY);
    if name == "" || digest == "" || version == "" then Err
    else
      var image := TrimSuffix(name, ".efi");
      var registry := ExtractRegistryDomain(image);
      if registry.None? then Err
      else Ok(Details(image, registry.value, ParseNormalized(image).value.path, digest, version))
  }

  // ----- Decoding undoes encoding -----------------------------------------------------------------------------

  lemma HexRoundTrip(n: nat)
    requires n < 16
    ensures IsHex(HexDigit(n)) && HexValue(HexDigit(n)) == n
  {
  }

  lemma UnescapeChar(c: char, rest: string)
    requires IsByte(c)
    ensures Unescape(EscapeChar(c) + rest) == Prepend(c, Unescape(rest))
  {
    var s := EscapeChar(c) + rest;
    if IsUnreserved(c) || c == ' ' {
      assert s[1..] == rest;
    } else {
      HexRoundTrip(c as int / 16);
      HexRoundTrip(c as int % 16);
      assert s[3..] == rest;
    }
  }

  /** Unescaping undoes escaping, for every byte string. */
  lemma {:induction false} UnescapeEscape(s: string)
    requires Bytes(s)
    ensures Unescape(Escape(s)) == Some(s)
  {
    if s != "" {
      UnescapeChar(s[0], Escape(s[1..]));
      UnescapeEscape(s[1..]);
      assert s == [s[0]] + s[1..];
    }
  }

  predicate IsEscaped(c: char) { IsUnreserved(c) || c == '+' || c == '%' }

  lemma EscapedChar(c: char)
    requires IsByte(c)
    ensures forall i :: 0 <= i < |EscapeChar(c)| ==> IsEscaped(EscapeChar(c)[i])
  {
    if !IsUnreserved(c) && c != ' ' {
      HexRoundTrip(c as int / 16);
      HexRoundTrip(c as int % 16);
    }
  }

  lemma {:induction false} EscapedChars(s: string)
    requires Bytes(s)
    ensures forall i :: 0 <= i < |Escape(s)| ==> IsEscaped(Escape(s)[i])
  {
    if s != "" {
      EscapedChar(s[0]);
      EscapedChars(s[1..]);
    }
  }

  lemma SettingChars(p: Pair)
    requires BytePair(p)
    ensures forall i :: 0 <= i < |Setting(p)| ==> IsEscaped(Setting(p)[i]) || Setting(p)[i] == '='
    ensures Setting(p) != ""
  {
    EscapedChars(p.key);
    EscapedChars(p.value);
  }

  lemma SettingFree(p: Pair)
    requires BytePair(p)
    ensures '&' !in Setting(p) && ';' !in Setting(p)
  {
    SettingChars(p);
  }

  lemma ParseSettingPrint(p: Pair)
    requires BytePair(p)
    ensures ParseSetting(Setting(p)) == [p]
  {
    SettingFree(p);
    EscapedChars(p.key);
    CutAt(Escape(p.key), '=', Escape(p.value));
    UnescapeEscape(p.key);
    UnescapeEscape(p.value);
  }

  lemma ParseLast(setting: string, pairs: seq<Pair>)
    requires '&' !in setting && setting != "" && ParseSetting(setting) == pairs
    ensures ParseQuery(setting) == pairs
  {
    assert Cut(setting, '&') == Pieces(setting, "", false);
    assert ParseQuery("") == [];
  }

  lemma ParseCons(setting: string, rest: string)
    requires '&' !in setting
    ensures ParseQuery(setting + "&" + rest) == ParseSetting(setting) + ParseQuery(rest)
  {
    CutAt(setting, '&', rest);
  }

  lemma EncodeCons(pairs: seq<Pair>)
    requires |pairs| > 1 && forall p :: p in pairs ==> BytePair(p)
    ensures Encode(pairs) == Setting(pairs[0]) + "&" + Encode(pairs[1..])
  {
  }

  /** Form decoding undoes form encoding. */
  lemma {:induction false} ParseEncode(pairs: seq<Pair>)
    requires forall p :: p in pairs ==> BytePair(p)
    ensures ParseQuery(Encode(pairs)) == pairs
  {
    if pairs != [] {
      var setting := Setting(pairs[0]);
      SettingFree(pairs[0]);
      SettingChars(pairs[0]);
      ParseSettingPrint(pairs[0]);
      if |pairs| == 1 {
        ParseLast(setting, pairs);
      } else {
        ParseEncode(pairs[1..]);
        EncodeCons(pairs);
        ParseCons(setting, Encode(pairs[1..]));
      }
    }
  }

  lemma SettingNoHash(p: Pair)
    requires BytePair(p)
    ensures '#' !in Setting(p)
  {
    SettingChars(p);
  }

  lemma {:induction false} EncodeFree(pairs: seq<Pair>)
    requires forall p :: p in pairs ==> BytePair(p)
    ensures '#' !in Encode(pairs)
  {
    if pairs != [] {
      SettingNoHash(pairs[0]);
      if |pairs| > 1 { EncodeFree(pairs[1..]); }
    }
  }

  lemma QueryOfPrinted(url: string, query: string)
    requires '?' !in url && '#' !in url && '#' !in query
    ensures QueryOf(url + "?" + query) == query
  {
    CutAt(url, '?', query);
  }

  lemma ImageSlash(serviceURL: string, query: string)
    requires '?' !in serviceURL && '#' !in serviceURL
    ensures '?' !in serviceURL + "/image" && '#' !in serviceURL + "/image"
    ensures serviceURL + "/image?" + query == serviceURL + "/image" + "?" + query
  {
    assert '?' !in "/image" && '#' !in "/image";
    assert "/image?" == "/image" + "?";
  }

  lemma KeysDiffer()
    ensures IMAGE_KEY != LAYER_DIGEST_KEY && IMAGE_KEY != VERSION_KEY && LAYER_DIGEST_KEY != VERSION_KEY
  {
    assert IMAGE_KEY[0] == 'i' && LAYER_DIGEST_KEY[0] == 'l' && VERSION_KEY[0] == 'v';
  }

  lemma GetParams(a: Pair, b: Pair, c: Pair)
    requires a.key != b.key && a.key != c.key && b.key != c.key
    ensures Get([a, b, c], a.key) == a.value && Get([a, b, c], b.key) == b.value && Get([a, b, c], c.key) == c.value
  {
    assert [a, b, c][1..] == [b, c] && [b, c][1..] == [c];
    assert Get([c], c.key) == c.value;
    assert Get([b, c], c.key) == Get([c], c.key);
  }

  /** Whatever the three values, the query of the printed URL holds exactly them. */
  lemma QueryRoundTrip(serviceURL: string, name: string, version: string, digest: string)
    requires '?' !in serviceURL && '#' !in serviceURL
    requires Bytes(name) && Bytes(version) && Bytes(digest)
    ensures var query := ParseQuery(QueryOf(BuildImageURL(serviceURL, name, version, digest)));
      Get(query, IMAGE_KEY) == name && Get(query, VERSION_KEY) == version && Get(query, LAYER_DIGEST_KEY) == digest
  {
    var pairs := Params(name, version, digest);
    EncodeFree(pairs);
    ImageSlash(serviceURL, Encode(pairs));
    QueryOfPrinted(serviceURL + "/image", Encode(pairs));
    ParseEncode(pairs);
    KeysDiffer();
    GetParams(pairs[0], pairs[1], pairs[2]);
  }

  predicate Says(result: Result<Details>, name: string, version: string, digest: string) {
    result.Ok? && result.value.image == name && result.value.version == version && result.value.layerDigest == digest
  }

  /** The proxy reads back name, version and digest of a printed URL exactly if none is empty and the
      name is a valid reference that does not end in `.efi`. */
  lemma ImageURLRoundTripsIff(serviceURL: string, name: string, version: string, digest: string)
    requires '?' !in serviceURL && '#' !in serviceURL
    requires Bytes(name) && Bytes(version) && Bytes(digest)
    ensures
      var result := ParseImageURL(ParseQuery(QueryOf(BuildImageURL(serviceURL, name, version, digest))));
      Says(result, name, version, digest) <==>
      name != "" && version != "" && digest != "" && !HasSuffix(name, ".efi") && ExtractRegistryDomain(name).Some?
  {
    QueryRoundTrip(serviceURL, name, version, digest);
    assert HasSuffix(name, ".efi") ==> |TrimSuffix(name, ".efi")| < |name|;
  }

  /** Two layers of one image, or two images, never get the same URL. */
  lemma ImageURLInjective(serviceURL: string, a: Details, b: Details)
    requires '?' !in serviceURL && '#' !in serviceURL
    requires Bytes(a.image) && Bytes(a.version) && Bytes(a.layerDigest)
    requires Bytes(b.image) && Bytes(b.version) && Bytes(b.layerDigest)
    requires BuildImageURL(serviceURL, a.image, a.version, a.layerDigest) ==
             BuildImageURL(serviceURL, b.image, b.version, b.layerDigest)
    ensures a.image == b.image && a.version == b.version && a.layerDigest == b.layerDigest
  {
    QueryRoundTrip(serviceURL, a.image, a.version, a.layerDigest);
    QueryRoundTrip(serviceURL, b.image, b.version, b.layerDigest);
  }

  // ----- What is printed -----------------------------------------------------------------------------------

  /** Letters, digits and `-_.~` stand for themselves, a space for a plus, and any other byte is a percent
      sign and its value in two hexadecimal digits. */
  lemma EscapeIs(c: char)
    requires IsByte(c)
    ensures if IsAlnum(c) || c in "-_.~" then EscapeChar(c) == [c]
            else if c == ' ' then EscapeChar(c) == "+"
            else
              && |EscapeChar(c)| == 3 && EscapeChar(c)[0] == '%' && EscapeChar(c)[1] in "0123456789ABCDEF"
              && EscapeChar(c)[2] in "0123456789ABCDEF"
              && 16 * HexValue(EscapeChar(c)[1]) + HexValue(EscapeChar(c)[2]) == c as int
  {
    HexRoundTrip(c as int / 16);
    HexRoundTrip(c as int % 16);
    UpperHex(c as int / 16);
    UpperHex(c as int % 16);
  }

  lemma UpperHex(n: nat)
    requires n < 16
    ensures HexDigit(n) in "0123456789ABCDEF"
  {
    assert "0123456789ABCDEF"[n] == HexDigit(n);
  }

  ghost predicate Plain(s: string) {
    Bytes(s) && forall i :: 0 <= i < |s| ==> IsUnreserved(s[i])
  }

  lemma KeysPlain()
    ensures Plain("imageName") && Plain("layerDigest") && Plain("version")
  {
  }

  lemma {:induction false} PlainEscape(s: string)
    requires Plain(s)
    ensures Escape(s) == s
  {
    if s != "" {
      PlainEscape(s[1..]);
      assert s == [s[0]] + s[1..];
    }
  }

  lemma SettingIs(p: Pair)
    requires BytePair(p) && Plain(p.key)
    ensures Setting(p) == p.key + "=" + Escape(p.value)
  {
    PlainEscape(p.key);
  }

  lemma EncodeThree(a: Pair, b: Pair, c: Pair)
    requires BytePair(a) && BytePair(b) && BytePair(c)
    ensures Encode([a, b, c]) == Setting(a) + "&" + (Setting(b) + "&" + Setting(c))
  {
    assert [a, b, c][1..] == [b, c] && [b, c][1..] == [c];
    assert Encode([c]) == Setting(c);
    assert Encode([b, c]) == Setting(b) + "&" + Encode([c]);
  }

  /** The printed URL: the keys in order, the values escaped. */
  lemma ImageURLIs(serviceURL: string, name: string, version: string, digest: string)
    requires Bytes(name) && Bytes(version) && Bytes(digest)
    ensures BuildImageURL(serviceURL, name, version, digest) ==
      serviceURL + "/image?" +
      ("imageName=" + Escape(name) + "&" + ("layerDigest=" + Escape(digest) + "&" + ("version=" + Escape(version))))
  {
    KeysPlain();
    var pairs := Params(name, version, digest);
    EncodeThree(pairs[0], pairs[1], pairs[2]);
    SettingIs(pairs[0]);
    SettingIs(pairs[1]);
    SettingIs(pairs[2]);
    KeyPrints();
  }

  lemma KeyPrints()
    ensures "imageName" + "=" == "imageName=" && "layerDigest" + "=" == "layerDigest=" && "version" + "=" == "version="
  {
  }
}
