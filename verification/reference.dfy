/**
 Image references: the parser of github.com/distribution/reference v0.6.0 as far as boot-operator sees
 it, and what internal/controller/serverbootconfig_helpers.go and internal/registry/validation.go build
 on it.  Regular expressions are written as predicates on strings; strings are ASCII.
 */
module Reference {
  import opened Wrappers
  import opened Text

  // ----- The grammar ----------------------------------------------------------------------------------

  predicate IsDigit(c: char) { '0' <= c <= '9' }

  predicate IsLower(c: char) { 'a' <= c <= 'z' || IsDigit(c) }

  predicate IsUpper(c: char) { 'A' <= c <= 'Z' }

  predicate IsAlnum(c: char) { IsLower(c) || IsUpper(c) }

  predicate IsSeparator(c: char) { c == '.' || c == '_' || c == '-' }

  /** `[a-z0-9]+` separated by single `.`, `_` or `__`, or any number of `-`. */
  predicate IsComponent(s: string) {
    && s != "" && IsLower(s[0]) && IsLower(s[|s| - 1])
    && (forall i :: 0 <= i < |s| ==> IsLower(s[i]) || IsSeparator(s[i]))
    && (forall i :: 0 <= i < |s| - 1 && IsSeparator(s[i]) && IsSeparator(s[i + 1]) ==> s[i] == s[i + 1] && s[i] != '.')
    && (forall i :: 0 <= i < |s| - 2 ==> !(s[i] == '_' && s[i + 1] == '_' && s[i + 2] == '_'))
  }

  /** Components separated by slashes. */
  predicate IsPath(s: string)
    decreases |s|
  {
    var cut := Cut(s, '/');
    IsComponent(cut.before) && (cut.found ==> IsPath(cut.after))
  }

  predicate IsDomainComponent(s: string) {
    s != "" && IsAlnum(s[0]) && IsAlnum(s[|s| - 1]) && forall i :: 0 <= i < |s| ==> IsAlnum(s[i]) || s[i] == '-'
  }

  predicate IsDomainName(s: string)
    decreases |s|
  {
    var cut := Cut(s, '.');
    IsDomainComponent(cut.before) && (cut.found ==> IsDomainName(cut.after))
  }

  predicate IsNumber(s: string) {
    s != "" && forall i :: 0 <= i < |s| ==> IsDigit(s[i])
  }

  predicate IsHex(c: char) { IsDigit(c) || 'a' <= c <= 'f' || 'A' <= c <= 'F' }

  /** An IPv6 address in brackets. */
  predicate IsBracketed(s: string) {
    && |s| > 2 && s[0] == '[' && s[|s| - 1] == ']'
    && forall i :: 0 < i < |s| - 1 ==> IsHex(s[i]) || s[i] == ':'
  }

  /** A host with an optional port. */
  predicate IsDomain(s: string) {
    if HasPrefix(s, "[") then
      var address := Cut(s, ']');
      address.found && IsBracketed(address.before + "]") &&
      (address.after == "" || (address.after[0] == ':' && IsNumber(address.after[1..])))
    else
      var host := Cut(s, ':');
      IsDomainName(host.before) && (host.found ==> IsNumber(host.after))
  }

  predicate IsWord(c: char) { IsAlnum(c) || c == '_' }

  predicate IsTag(s: string) {
    1 <= |s| <= 128 && IsWord(s[0]) && forall i :: 0 <= i < |s| ==> IsWord(s[i]) || s[i] == '.' || s[i] == '-'
  }

  predicate IsLowerHex(s: string) {
    forall i :: 0 <= i < |s| ==> IsDigit(s[i]) || 'a' <= s[i] <= 'f'
  }

  predicate IsDigest(s: string) {
    && |s| > 7 && IsLowerHex(s[7..])
    && ((s[..7] == "sha256:" && |s| == 7 + 64)
        || (s[..7] == "sha384:" && |s| == 7 + 96)
        || (s[..7] == "sha512:" && |s| == 7 + 128))
  }

  /** A bare 64-digit hexadecimal string, which is not accepted as a name. */
  predicate IsIdentifier(s: string) {
    |s| == 64 && IsLowerHex(s)
  }

  // ----- The parser -------------------------------------------------------------------------------------

  /** "" stands for an absent domain, tag or digest. */
  datatype Named = Named(domain: string, path: string, tag: string, digest: string)

  datatype Name = Name(domain: string, path: string)

  const DOCKER_IO := "docker.io"

  const LIBRARY := "library/"

  predicate IsSpecial(first: string) {
    first == "localhost" || '.' in first || ':' in first || ToLower(first) != first
  }

  /** `splitDockerDomain` */
  function SplitDomain(s: string): Name {
    var cut := Cut(s, '/');
    if !cut.found then Name(DOCKER_IO, LIBRARY + s)
    else
      var n := if cut.before == "index.docker.io" then Name(DOCKER_IO, cut.after)
               else if IsSpecial(cut.before) then Name(cut.before, cut.after)
               else Name(DOCKER_IO, s);
      if n.domain == DOCKER_IO && '/' !in n.path then n.(path := LIBRARY + n.path) else n
  }

  /** The name part: the first component is the domain if it has the form of one. */
  function ParseName(s: string): Option<Name> {
    var cut := Cut(s, '/');
    if cut.found && IsDomain(cut.before) && IsPath(cut.after) then Some(Name(cut.before, cut.after))
    else if IsPath(s) then Some(Name("", s))
    else None
  }

  /** A colon after the last slash starts the tag. */
  function TagSeparator(s: string): int {
    var colon := LastIndex(s, ':');
    if colon > LastIndex(s, '/') then colon else -1
  }

  datatype Parts = Parts(name: string, tagged: bool, tag: string, digested: bool, digest: string)

  function PartsOf(s: string): Parts {
    var cut := Cut(s, '@');
    var sep := TagSeparator(cut.before);
    if sep < 0 then Parts(cut.before, false, "", cut.found, cut.after)
    else Parts(cut.before[..sep], true, cut.before[sep + 1..], cut.found, cut.after)
  }

  /** `reference.Parse` */
  function Parse(s: string): Option<Named> {
    var p := PartsOf(s);
    var name := ParseName(p.name);
    if name.None? || |name.value.path| > 255 || (p.tagged && !IsTag(p.tag)) ||
        (p.digested && !IsDigest(p.digest)) then None
    else Some(Named(name.value.domain, name.value.path, p.tag, p.digest))
  }

  /** `reference.ParseNormalizedNamed` */
  function ParseNormalized(s: string): Option<Named> {
    var n := SplitDomain(s);
    var remote := Cut(n.path, ':').before;
    if IsIdentifier(s) || ToLower(remote) != remote then None else Parse(n.domain + "/" + n.path)
  }

  /** `reference.FamiliarName` */
  function FamiliarName(n: Name): string {
    if n.domain == DOCKER_IO then
      if HasPrefix(n.path, LIBRARY) && '/' !in TrimPrefix(n.path, LIBRARY) then TrimPrefix(n.path, LIBRARY) else n.path
    else if n.domain == "" then n.path
    else n.domain + "/" + n.path
  }

  // ----- What boot-operator builds on it ------------------------------------------------------------------

  const DEFAULT_REGISTRY := "registry-1.docker.io"

  /** `ExtractRegistryDomain` */
  function ExtractRegistryDomain(imageRef: string): Option<string> {
    var named := ParseNormalized(imageRef);
    if named.None? then None
    else Some(if named.value.domain == DOCKER_IO then DEFAULT_REGISTRY else named.value.domain)
  }

  datatype Image = Image(name: string, version: string)

  /** `ParseImageReference` */
  function ParseImageReference(image: string): Option<Image> {
    var named := ParseNormalized(image);
    if named.None? then None
    else
      var n := named.value;
      var version := if n.tag != "" then n.tag else if n.digest != "" then n.digest else "latest";
      Some(Image(FamiliarName(Name(n.domain, n.path)), version))
  }

  /** `BuildImageReference` */
  function BuildImageReference(name: string, version: string): string {
    if HasPrefix(version, "sha256:") || HasPrefix(version, "sha512:") then name + "@" + version
    else name + ":" + version
  }
}
