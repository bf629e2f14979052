/** Printing and parsing image references. */
module ReferenceProofs {
  import opened Wrappers
  import opened Text
  import opened Reference

  // ----- Paths and domains --------------------------------------------------------------------------------

  predicate IsPathChar(c: char) { IsLower(c) || IsSeparator(c) || c == '/' }

  ghost predicate All(p: char -> bool, s: string) {
    forall i :: 0 <= i < |s| ==> p(s[i])
  }

  lemma AllConcat(p: char -> bool, a: string, c: char, b: string)
    requires All(p, a) && p(c) && All(p, b)
    ensures All(p, a + [c] + b)
  {
  }

  lemma ComponentChars(s: string)
    requires IsComponent(s)
    ensures All(IsPathChar, s) && '/' !in s
  {
  }

  lemma {:induction false} PathChars(s: string)
    requires IsPath(s)
    ensures All(IsPathChar, s)
    decreases |s|
  {
    var cut := Cut(s, '/');
    ComponentChars(cut.before);
    if cut.found {
      PathChars(cut.after);
      AllConcat(IsPathChar, cut.before, '/', cut.after);
    }
  }

  lemma PathCons(part: string, rest: string)
    requires IsComponent(part) && IsPath(rest)
    ensures IsPath(part + "/" + rest)
  {
    ComponentChars(part);
    CutAt(part, '/', rest);
  }

  lemma LowerFixed(s: string)
    requires forall i :: 0 <= i < |s| ==> !IsUpper(s[i])
    ensures ToLower(s) == s
  {
  }

  lemma PathCharsFree(s: string)
    requires All(IsPathChar, s)
    ensures '@' !in s && ':' !in s && ToLower(s) == s
  {
    LowerFixed(s);
  }

  lemma PathFree(s: string)
    requires IsPath(s)
    ensures '@' !in s && ':' !in s && ToLower(s) == s
  {
    PathChars(s);
    PathCharsFree(s);
  }

  predicate IsNameChar(c: char) { IsAlnum(c) || c == '-' || c == '.' }

  lemma {:induction false} DomainNameChars(s: string)
    requires IsDomainName(s)
    ensures All(IsNameChar, s) && s != ""
    decreases |s|
  {
    var cut := Cut(s, '.');
    if cut.found {
      DomainNameChars(cut.after);
      AllConcat(IsNameChar, cut.before, '.', cut.after);
    }
  }

  predicate IsDomainChar(c: char) { c != '/' && c != '@' }

  lemma DomainChars(s: string)
    requires IsDomain(s)
    ensures All(IsDomainChar, s) && s != ""
  {
    if HasPrefix(s, "[") {
      var address := Cut(s, ']');
      assert forall i :: 0 <= i < |address.before| ==> address.before[i] == (address.before + "]")[i];
      assert All(IsDomainChar, address.before);
      assert All(IsDomainChar, address.after) by {
        assert forall i :: 0 < i < |address.after| ==> address.after[i] == address.after[1..][i - 1];
      }
      AllConcat(IsDomainChar, address.before, ']', address.after);
    } else {
      var host := Cut(s, ':');
      DomainNameChars(host.before);
      assert All(IsDomainChar, host.before);
      if host.found { AllConcat(IsDomainChar, host.before, ':', host.after); }
    }
  }

  predicate Plain(s: string) { s != "" && forall i :: 0 <= i < |s| ==> 'a' <= s[i] <= 'z' }

  lemma PlainComponent(s: string)
    requires Plain(s)
    ensures IsComponent(s) && IsDomainComponent(s) && '.' !in s && ':' !in s && '/' !in s
  {
  }

  lemma DockerIsDomainName()
    ensures IsDomainName(DOCKER_IO)
  {
    assert Plain("docker");
    assert Plain("io");
    PlainComponent("docker");
    PlainComponent("io");
    assert "docker" + ['.'] + "io" == DOCKER_IO;
    CutAt("docker", '.', "io");
  }

  lemma DockerHasNoPort()
    ensures ':' !in DOCKER_IO && '@' !in DOCKER_IO && '/' !in DOCKER_IO
  {
  }

  lemma DockerIsDomain()
    ensures IsDomain(DOCKER_IO)
  {
    DockerIsDomainName();
    DockerHasNoPort();
  }

  lemma LibraryIsPlain()
    ensures Plain("library")
  {
  }

  // ----- The name part ------------------------------------------------------------------------------------

  /** What the parser needs to know of the name before tag and digest. */
  ghost predicate IsName(s: string, n: Name) {
    ParseName(s) == Some(n) && |n.path| <= 255
  }

  lemma ParseNameFree(s: string)
    requires ParseName(s).Some?
    ensures '@' !in s && IsPath(ParseName(s).value.path)
    ensures NoColonLast(s)
  {
    var cut := Cut(s, '/');
    if cut.found && IsDomain(cut.before) && IsPath(cut.after) {
      DomainChars(cut.before);
      PathFree(cut.after);
      NoColonAfter(cut.before, cut.after);
    } else {
      PathFree(s);
    }
  }

  lemma NoColonAfter(before: string, after: string)
    requires '@' !in before && '@' !in after && ':' !in after
    ensures '@' !in before + ['/'] + after && NoColonLast(before + ['/'] + after)
  {
    var s := before + ['/'] + after;
    assert s[|before|] == '/';
  }

  predicate IsSuffix(tag: string, digest: string) {
    (tag == "" || IsTag(tag)) && (digest == "" || IsDigest(digest))
  }

  lemma TagFree(tag: string)
    requires IsTag(tag)
    ensures '@' !in tag && ':' !in tag && '/' !in tag && tag != ""
  {
  }

  ghost predicate NoColonLast(name: string) {
    forall i :: LastIndex(name, '/') < i < |name| ==> name[i] != ':'
  }

  lemma Untagged(name: string)
    requires NoColonLast(name)
    ensures TagSeparator(name) == -1
  {
  }

  lemma Tagged(name: string, tag: string)
    requires '/' !in tag && ':' !in tag
    ensures TagSeparator(name + ":" + tag) == |name|
    ensures (name + ":" + tag)[..|name|] == name && (name + ":" + tag)[|name| + 1..] == tag
  {
    var s := name + ":" + tag;
    assert s[|name|] == ':' && forall i :: |name| < i < |s| ==> s[i] == tag[i - |name| - 1];
  }

  function WithTag(name: string, tag: string): string {
    if tag == "" then name else name + ":" + tag
  }

  function WithDigest(left: string, digest: string): string {
    if digest == "" then left else left + "@" + digest
  }

  lemma PartsPrint(name: string, tag: string, digest: string)
    requires '@' !in name && NoColonLast(name) && '@' !in tag && ':' !in tag && '/' !in tag
    ensures PartsOf(WithDigest(WithTag(name, tag), digest)) == Parts(name, tag != "", tag, digest != "", digest)
  {
    CutDigest(WithTag(name, tag), digest);
    if tag == "" { Untagged(name); } else { Tagged(name, tag); }
  }

  /** Parsing undoes printing: for every name, tag and digest of the right form. */
  lemma ParsePrint(name: string, n: Name, tag: string, digest: string)
    requires IsName(name, n) && IsSuffix(tag, digest)
    ensures Parse(WithDigest(WithTag(name, tag), digest)) == Some(Named(n.domain, n.path, tag, digest))
  {
    ParseNameFree(name);
    if tag != "" { TagFree(tag); }
    PartsPrint(name, tag, digest);
  }

  lemma CutDigest(left: string, digest: string)
    requires '@' !in left
    ensures Cut(WithDigest(left, digest), '@') ==
      if digest == "" then Pieces(left, "", false) else Pieces(left, digest, true)
  {
    if digest != "" { CutAt(left, '@', digest); }
  }

  // ----- Normalisation ------------------------------------------------------------------------------------

  lemma AppendTo(a: string, b: string, c: string)
    ensures a + (b + c) == a + b + c
  {
  }

  lemma CutSuffix(s: string, c: char, suffix: string)
    requires c !in suffix || c in s
    ensures var cut := Cut(s, c);
      Cut(s + suffix, c) == if cut.found then cut.(after := cut.after + suffix) else Pieces(s + suffix, "", false)
  {
    var cut := Cut(s, c);
    if cut.found {
      CutAt(cut.before, c, cut.after + suffix);
      GroupSuffix(cut.before, c, cut.after, suffix);
    } else {
      CutNothing(s + suffix, c);
    }
  }

  lemma GroupSuffix(before: string, c: char, after: string, suffix: string)
    ensures before + [c] + after + suffix == before + [c] + (after + suffix)
  {
  }

  lemma CutNothing(s: string, c: char)
    requires c !in s
    ensures Cut(s, c) == Pieces(s, "", false)
  {
  }

  lemma SplitSuffix(name: string, suffix: string)
    requires '/' !in suffix
    ensures SplitDomain(name + suffix) == SplitDomain(name).(path := SplitDomain(name).path + suffix)
  {
    CutSuffix(name, '/', suffix);
    AppendTo(LIBRARY, name, suffix);
    AppendTo(LIBRARY, Cut(name, '/').after, suffix);
  }

  /** The part of a remote name before the first colon, which must be lower case. */
  lemma RemoteLower(path: string, tag: string, digest: string)
    requires ':' !in path && ToLower(path) == path && (digest == "" || IsDigest(digest))
    ensures var remote := Cut(WithDigest(WithTag(path, tag), digest), ':').before; ToLower(remote) == remote
  {
    if tag != "" {
      TagAfterColon(path, tag, digest);
      CutAt(path, ':', tag + WithDigest("", digest));
    } else if digest != "" {
      DigestHead(digest);
      DigestLower(path, digest[..6], digest[7..]);
      DigestSplit(path, digest);
    }
  }

  lemma TagAfterColon(path: string, tag: string, digest: string)
    requires tag != ""
    ensures WithDigest(WithTag(path, tag), digest) == path + [':'] + (tag + WithDigest("", digest))
  {
  }

  lemma DigestSplit(path: string, digest: string)
    requires |digest| > 6 && digest[6] == ':'
    ensures path + "@" + digest == path + ("@" + digest[..6]) + [':'] + digest[7..]
  {
  }

  lemma DigestLower(path: string, algorithm: string, hex: string)
    requires ':' !in path && ToLower(path) == path
    requires ':' !in "@" + algorithm && ToLower("@" + algorithm) == "@" + algorithm
    ensures var remote := Cut(path + ("@" + algorithm) + [':'] + hex, ':').before; ToLower(remote) == remote
  {
    CutAt(path + ("@" + algorithm), ':', hex);
    LowerAppend(path, "@" + algorithm);
  }

  lemma DigestHead(digest: string)
    requires IsDigest(digest)
    ensures digest[6] == ':' && ':' !in "@" + digest[..6] && ToLower("@" + digest[..6]) == "@" + digest[..6]
  {
    var head := digest[..7];
    assert digest[..6] == head[..6];
    assert forall i :: 0 <= i < 6 ==> !IsUpper(head[i]) && head[i] != ':';
    LowerFixed("@" + digest[..6]);
  }

  lemma LowerAppend(a: string, b: string)
    ensures ToLower(a + b) == ToLower(a) + ToLower(b)
  {
  }

  // ----- Familiar names -------------------------------------------------------------------------------------

  /** `name` normalises to `n`, with or without a tag or digest. */
  ghost predicate NormalizesTo(name: string, n: Name) {
    var split := SplitDomain(name);
    IsName(split.domain + "/" + split.path, n) && IsPath(split.path)
  }

  lemma ParseNormalizedPrint(name: string, n: Name, tag: string, digest: string)
    requires NormalizesTo(name, n) && IsSuffix(tag, digest)
    ensures ParseNormalized(WithDigest(WithTag(name, tag), digest)) ==
      if IsIdentifier(WithDigest(WithTag(name, tag), digest)) then None else Some(Named(n.domain, n.path, tag, digest))
  {
    var split := SplitDomain(name);
    var suffix := WithDigest(WithTag("", tag), digest);
    PathFree(split.path);
    RemoteLower(split.path, tag, digest);
    SuffixFree(tag, digest);
    AppendSuffix(name, tag, digest);
    AppendSuffix(split.path, tag, digest);
    AppendSuffix(split.domain + "/" + split.path, tag, digest);
    SplitSuffix(name, suffix);
    AppendTo(split.domain + "/", split.path, suffix);
    ParsePrint(split.domain + "/" + split.path, n, tag, digest);
  }

  lemma AppendTag(name: string, tag: string)
    ensures WithTag(name, tag) == name + WithTag("", tag)
  {
    assert name + "" == name;
    assert name + ("" + ":" + tag) == name + ":" + tag;
  }

  lemma AppendDigest(name: string, tail: string, digest: string)
    ensures WithDigest(name + tail, digest) == name + WithDigest(tail, digest)
  {
    assert name + (tail + "@" + digest) == name + tail + "@" + digest;
  }

  lemma AppendSuffix(name: string, tag: string, digest: string)
    ensures WithDigest(WithTag(name, tag), digest) == name + WithDigest(WithTag("", tag), digest)
  {
    AppendTag(name, tag);
    AppendDigest(name, WithTag("", tag), digest);
  }

  lemma SuffixFree(tag: string, digest: string)
    requires IsSuffix(tag, digest)
    ensures '/' !in WithDigest(WithTag("", tag), digest)
  {
    if tag != "" { TagFree(tag); }
    if digest != "" { DigestFree(digest); }
  }

  lemma DigestFree(digest: string)
    requires IsDigest(digest)
    ensures '/' !in digest && '@' !in digest
  {
    var head := digest[..7];
    assert forall i :: 0 <= i < 7 ==> head[i] != '/' && head[i] != '@';
    assert forall i :: 7 <= i < |digest| ==> digest[i] == digest[7..][i - 7];
  }

  lemma CutJoin(s: string, c: char)
    ensures var cut := Cut(s, c); s == if cut.found then cut.before + [c] + cut.after else cut.before
  {
  }

  lemma TagJoin(s: string, i: nat)
    requires i < |s| && s[i] == ':'
    ensures s == s[..i] + ":" + s[i + 1..]
  {
  }

  lemma PartsJoin(s: string)
    requires var p := PartsOf(s); (p.tagged ==> p.tag != "") && (p.digested ==> p.digest != "")
    ensures var p := PartsOf(s); s == WithDigest(WithTag(p.name, p.tag), p.digest)
  {
    var cut := Cut(s, '@');
    var sep := TagSeparator(cut.before);
    CutJoin(s, '@');
    if sep >= 0 { TagJoin(cut.before, sep); }
  }

  lemma NamePrefix(domain: string, path: string, name: string, suffix: string)
    requires domain + "/" + path == name + suffix && '/' !in suffix
    ensures |name| > |domain| && name == domain + "/" + name[|domain| + 1..] && path == name[|domain| + 1..] + suffix
  {
    var s := domain + "/" + path;
    assert s[|domain|] == '/';
    assert forall i :: 0 <= i < |name| ==> name[i] == s[i];
    assert forall i :: |name| <= i < |s| ==> suffix[i - |name|] == s[i];
    var q := name[|domain| + 1..];
    assert |path| == |q + suffix|;
    assert forall i :: 0 <= i < |path| ==> path[i] == s[|domain| + 1 + i] == (q + suffix)[i];
  }

  /** What a successful parse says: the name is the domain and a path `q`, which is what is left of the
      remote name without tag and digest. */
  lemma ParsedName(s: string) returns (q: string)
    requires ParseNormalized(s).Some?
    ensures var split, named := SplitDomain(s), ParseNormalized(s).value;
      && IsName(split.domain + "/" + q, Name(named.domain, named.path))
      && IsSuffix(named.tag, named.digest)
      && split.path == q + WithDigest(WithTag("", named.tag), named.digest)
  {
    var split := SplitDomain(s);
    var full := split.domain + "/" + split.path;
    var p := PartsOf(full);
    PartsJoin(full);
    SuffixFree(p.tag, p.digest);
    AppendSuffix(p.name, p.tag, p.digest);
    NamePrefix(split.domain, split.path, p.name, WithDigest(WithTag("", p.tag), p.digest));
    q := p.name[|split.domain| + 1..];
  }

  lemma LibrarySlashIn(name: string)
    ensures '/' in LIBRARY + name
  {
    assert LIBRARY[7] == '/';
    assert (LIBRARY + name)[7] == '/';
  }

  lemma SplitShape(s: string)
    ensures var n := SplitDomain(s);
      && '/' !in n.domain
      && (n.domain == DOCKER_IO ==> '/' in n.path)
      && (n.domain != DOCKER_IO ==> IsSpecial(n.domain) && n.domain != "index.docker.io")
  {
    DockerHasNoPort();
    LibrarySlashIn(s);
    LibrarySlashIn(Cut(s, '/').after);
  }

  lemma SplitPrinted(domain: string, path: string)
    requires '/' !in domain && domain != DOCKER_IO && domain != "index.docker.io" && IsSpecial(domain)
    ensures SplitDomain(domain + "/" + path) == Name(domain, path)
  {
    CutAt(domain, '/', path);
  }

  /** The two ways a domain and a path are read back: a first component such as `a_b.c`, which looks
      like a domain but is none, ends up in the path. */
  lemma ParsePair(domain: string, path: string)
    requires '/' !in domain && ParseName(domain + "/" + path).Some?
    ensures IsPath(path)
    ensures ParseName(domain + "/" + path).value ==
      if IsDomain(domain) then Name(domain, path) else Name("", domain + "/" + path)
  {
    CutAt(domain, '/', path);
  }

  lemma ParseDocker(path: string)
    requires IsPath(path)
    ensures ParseName(DOCKER_IO + "/" + path) == Some(Name(DOCKER_IO, path))
  {
    DockerHasNoPort();
    DockerIsDomain();
    CutAt(DOCKER_IO, '/', path);
  }

  predicate Shadowed(name: string) {
    HasPrefix(name, "docker.io/") || HasPrefix(name, "index.docker.io/")
  }

  lemma PrefixCut(name: string, domain: string)
    requires '/' !in domain
    ensures HasPrefix(name, domain + "/") <==> Cut(name, '/').found && Cut(name, '/').before == domain
  {
    if HasPrefix(name, domain + "/") {
      assert name == domain + ['/'] + name[|domain| + 1..];
      CutAt(domain, '/', name[|domain| + 1..]);
    }
  }

  lemma ShadowedCut(name: string)
    ensures Shadowed(name) <==>
      var cut := Cut(name, '/'); cut.found && (cut.before == DOCKER_IO || cut.before == "index.docker.io")
  {
    PrefixCut(name, DOCKER_IO);
    PrefixCut(name, "index.docker.io");
    assert DOCKER_IO + "/" == "docker.io/";
    assert "index.docker.io" + "/" == "index.docker.io/";
  }

  /** Library names: the familiar name of `library/x` is `x`. */
  lemma FamiliarLibrary(x: string)
    requires '/' !in x
    ensures SplitDomain(x) == Name(DOCKER_IO, LIBRARY + x)
    ensures FamiliarName(Name(DOCKER_IO, LIBRARY + x)) == x
  {
  }

  /** Names with a domain of their own are printed in full and read back. */
  lemma FamiliarForeign(domain: string, path: string, n: Name)
    requires '/' !in domain && domain != DOCKER_IO && domain != "index.docker.io" && IsSpecial(domain)
    requires IsName(domain + "/" + path, n)
    ensures FamiliarName(n) == domain + "/" + path
    ensures NormalizesTo(domain + "/" + path, n) && !Shadowed(domain + "/" + path)
  {
    ParsePair(domain, path);
    if IsDomain(domain) { DomainChars(domain); }
    SplitPrinted(domain, path);
    CutAt(domain, '/', path);
    ShadowedCut(domain + "/" + path);
  }

  lemma LibraryPath(path: string)
    requires HasPrefix(path, LIBRARY)
    ensures path == LIBRARY + TrimPrefix(path, LIBRARY)
  {
  }

  predicate IsLibrary(path: string) {
    HasPrefix(path, LIBRARY) && '/' !in TrimPrefix(path, LIBRARY)
  }

  lemma DockerName(path: string)
    requires IsPath(path) && |path| <= 255
    ensures IsName(DOCKER_IO + "/" + path, Name(DOCKER_IO, path))
  {
    ParseDocker(path);
  }

  lemma PathConsAs(prefix: string, part: string, rest: string)
    requires prefix == part + "/" && Plain(part) && IsPath(rest)
    ensures IsPath(prefix + rest) && |prefix + rest| == |part| + 1 + |rest|
  {
    PlainComponent(part);
    PathCons(part, rest);
  }

  lemma LibraryJoin(rest: string)
    requires IsPath(rest)
    ensures IsPath(LIBRARY + rest) && |LIBRARY + rest| == |rest| + 8
  {
    LibraryIsPlain();
    LibrarySlash();
    PathConsAs(LIBRARY, "library", rest);
  }

  lemma LibrarySlash()
    ensures LIBRARY == "library" + "/"
  {
  }

  function WithLibrary(path: string): string {
    if '/' in path then path else LIBRARY + path
  }

  lemma SplitShadowed(first: string, rest: string)
    requires first == DOCKER_IO || first == "index.docker.io"
    ensures SplitDomain(first + "/" + rest) == Name(DOCKER_IO, WithLibrary(rest))
  {
    DockerIsSpecial();
    DockerHasNoPort();
    assert '/' !in "index.docker.io";
    CutAt(first, '/', rest);
  }

  /** A Docker Hub name whose path starts with `docker.io/` or `index.docker.io/` loses that part. */
  lemma RereadShadowed(path: string) returns (n: Name)
    requires IsPath(path) && |path| <= 255 && Shadowed(path)
    ensures NormalizesTo(path, n) && FamiliarName(n) != path
  {
    ShadowedCut(path);
    var cut := Cut(path, '/');
    var inner := WithLibrary(cut.after);
    if '/' !in cut.after { LibraryJoin(cut.after); FamiliarLibrary(cut.after); }
    SplitShadowed(cut.before, cut.after);
    DockerName(inner);
    n := Name(DOCKER_IO, inner);
    FamiliarShrinks(inner);
  }

  lemma DockerIsSpecial()
    ensures IsSpecial(DOCKER_IO)
  {
    assert DOCKER_IO[6] == '.';
  }

  lemma FamiliarShrinks(path: string)
    ensures |FamiliarName(Name(DOCKER_IO, path))| == if IsLibrary(path) then |path| - 8 else |path|
  {
  }

  lemma RereadOrdinary(first: string, rest: string)
    requires '/' !in first && !IsSpecial(first) && first != "index.docker.io"
    ensures SplitDomain(first + "/" + rest) == Name(DOCKER_IO, first + "/" + rest)
  {
    CutAt(first, '/', rest);
    assert (first + "/" + rest)[|first|] == '/';
  }

  lemma RereadPath(path: string) returns (n: Name)
    requires IsPath(path) && |path| <= 255 && '/' in path && !IsLibrary(path) && !Shadowed(path)
    ensures NormalizesTo(path, n) && FamiliarName(n) == path
  {
    var cut := Cut(path, '/');
    ShadowedCut(path);
    if IsSpecial(cut.before) {
      n := ParseName(path).value;
      FamiliarForeign(cut.before, cut.after, n);
    } else {
      DockerName(path);
      RereadOrdinary(cut.before, cut.after);
      n := Name(DOCKER_IO, path);
    }
  }

  lemma RereadLibrary(path: string)
    requires IsPath(path) && |path| <= 255 && IsLibrary(path)
    ensures var familiar := FamiliarName(Name(DOCKER_IO, path));
      NormalizesTo(familiar, Name(DOCKER_IO, path)) && !Shadowed(familiar)
  {
    LibraryPath(path);
    FamiliarLibrary(TrimPrefix(path, LIBRARY));
    ShadowedCut(TrimPrefix(path, LIBRARY));
    DockerName(path);
  }

  lemma FamiliarDocker(path: string) returns (n: Name)
    requires IsPath(path) && |path| <= 255 && '/' in path
    ensures var familiar := FamiliarName(Name(DOCKER_IO, path));
      NormalizesTo(familiar, n) && (FamiliarName(n) == familiar <==> !Shadowed(familiar))
  {
    if IsLibrary(path) {
      RereadLibrary(path);
      n := Name(DOCKER_IO, path);
    } else if Shadowed(path) {
      n := RereadShadowed(path);
    } else {
      n := RereadPath(path);
    }
  }

  lemma InPath(path: string, q: string, suffix: string, c: char)
    requires path == q + suffix && c in path && c !in suffix
    ensures c in q
  {
  }

  /** The familiar name of a parsed reference is itself a valid name.  It stands for itself unless it
      starts with a Docker Hub domain. */
  lemma FamiliarNormalizes(s: string) returns (n: Name)
    requires ParseNormalized(s).Some?
    ensures var named := ParseNormalized(s).value;
      var familiar := FamiliarName(Name(named.domain, named.path));
      NormalizesTo(familiar, n) && (FamiliarName(n) == familiar <==> !Shadowed(familiar))
  {
    var split, named := SplitDomain(s), ParseNormalized(s).value;
    var q := ParsedName(s);
    SplitShape(s);
    ParsePair(split.domain, q);
    if split.domain != DOCKER_IO {
      n := Name(named.domain, named.path);
      FamiliarForeign(split.domain, q, n);
    } else {
      DockerIsDomain();
      SuffixFree(named.tag, named.digest);
      InPath(split.path, q, WithDigest(WithTag("", named.tag), named.digest), '/');
      n := FamiliarDocker(q);
    }
  }
}
