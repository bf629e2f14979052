/** The name in an image reference, and the characters references consist of. */
module ReferenceNames {
  import opened Text
  import opened Reference
  import opened ReferenceProofs
  import opened ReferenceRoundTrip

  // ----- The name in an image ----------------------------------------------------------------------------

  lemma TailOf(whole: string, tail: string, q: string, suffix: string)
    requires whole == LIBRARY + tail || whole == tail
    requires whole == q + suffix && '/' !in suffix
    ensures |suffix| <= |tail| && tail == tail[..|tail| - |suffix|] + suffix
  {
    if whole == LIBRARY + tail {
      LibraryEnds();
      TailBeyond(LIBRARY, tail, q, suffix);
    } else {
      assert tail == "" + tail;
      EndOf("", tail, q, suffix);
    }
  }

  lemma TailBeyond(front: string, tail: string, q: string, suffix: string)
    requires front != "" && front[|front| - 1] == '/' && front + tail == q + suffix && '/' !in suffix
    ensures |suffix| <= |tail| && tail == tail[..|tail| - |suffix|] + suffix
  {
    assert (q + suffix)[|front| - 1] == '/';
    assert forall i :: |q| <= i < |q + suffix| ==> (q + suffix)[i] == suffix[i - |q|];
    EndOf(front, tail, q, suffix);
  }

  lemma EndOf(front: string, tail: string, q: string, suffix: string)
    requires front + tail == q + suffix && |suffix| <= |tail|
    ensures tail == tail[..|tail| - |suffix|] + suffix
  {
    var n := |tail| - |suffix|;
    forall i | 0 <= i < |suffix| ensures tail[n + i] == suffix[i] {
      assert (front + tail)[|front| + n + i] == tail[n + i];
      assert (q + suffix)[|q| + i] == suffix[i];
    }
    assert tail[n..] == suffix;
  }

  lemma LibraryEnds()
    ensures |LIBRARY| == 8 && LIBRARY[7] == '/'
  {
  }

  lemma PathCases(image: string)
    ensures var cut, path := Cut(image, '/'), SplitDomain(image).path;
      || path == image || path == LIBRARY + image
      || (cut.found && (path == cut.after || path == LIBRARY + cut.after))
  {
  }

  lemma TailBehind(image: string, first: string, rest: string, suffix: string)
    requires image == first + ['/'] + rest && |suffix| <= |rest| && rest == rest[..|rest| - |suffix|] + suffix
    ensures |suffix| <= |image| && image == image[..|image| - |suffix|] + suffix
  {
    EndOf("", image, first + ['/'] + rest[..|rest| - |suffix|], suffix);
  }

  /** A suffix of the remote name without a slash is a suffix of the whole image. */
  lemma SuffixOfImage(image: string, q: string, suffix: string)
    requires SplitDomain(image).path == q + suffix && '/' !in suffix
    ensures |suffix| <= |image| && image == image[..|image| - |suffix|] + suffix
  {
    var cut, path := Cut(image, '/'), SplitDomain(image).path;
    PathCases(image);
    if path == image || path == LIBRARY + image {
      TailOf(path, image, q, suffix);
    } else {
      TailOf(path, cut.after, q, suffix);
      TailBehind(image, cut.before, cut.after, suffix);
    }
  }

  lemma Cancel(a: string, b: string, suffix: string)
    requires a + suffix == b + suffix
    ensures a == b
  {
    assert (a + suffix)[..|a|] == a;
    assert (b + suffix)[..|b|] == b;
  }

  /** The image is a name with the suffix of a parsed reference. */
  lemma NameInImage(image: string) returns (name: string, n: Name)
    requires ParseNormalized(image).Some?
    ensures var named := ParseNormalized(image).value;
      && NormalizesTo(name, n) && n == Name(named.domain, named.path)
      && IsSuffix(named.tag, named.digest)
      && image == WithDigest(WithTag(name, named.tag), named.digest)
  {
    var named := ParseNormalized(image).value;
    var q := ParsedName(image);
    var suffix := WithDigest(WithTag("", named.tag), named.digest);
    SuffixFree(named.tag, named.digest);
    SuffixOfImage(image, q, suffix);
    name := image[..|image| - |suffix|];
    n := Name(named.domain, named.path);
    SplitSuffix(name, suffix);
    Cancel(SplitDomain(name).path, q, suffix);
    AppendSuffix(name, named.tag, named.digest);
    SplitShape(image);
    ParsePair(SplitDomain(image).domain, q);
  }

  lemma InPrefix(domain: string, path: string)
    requires '@' !in domain + "/" + path
    ensures '@' !in domain
  {
    assert forall i :: 0 <= i < |domain| ==> domain[i] == (domain + "/" + path)[i];
  }

  lemma IndexFree()
    ensures '@' !in "index.docker.io"
  {
  }

  lemma Without(whole: string, tail: string)
    requires (whole == LIBRARY + tail || whole == tail) && '@' !in whole && ':' !in whole
    ensures '@' !in tail && ':' !in tail
  {
    if whole == LIBRARY + tail {
      LibraryEnds();
      assert forall i :: 0 <= i < |tail| ==> tail[i] == whole[8 + i];
    }
  }

  lemma SplitCases(name: string)
    ensures var cut, split := Cut(name, '/'), SplitDomain(name);
      || split.path == name || split.path == LIBRARY + name
      || (cut.found && (split.path == cut.after || split.path == LIBRARY + cut.after)
          && (cut.before == split.domain || cut.before == "index.docker.io"))
  {
  }

  lemma FreeOf(name: string, path: string)
    requires path == name || path == LIBRARY + name
    requires '@' !in path && ':' !in path
    ensures '@' !in name && NoColonLast(name)
  {
    Without(path, name);
  }

  lemma FreeBehind(first: string, rest: string, path: string)
    requires path == rest || path == LIBRARY + rest
    requires '@' !in path && ':' !in path && '@' !in first
    ensures '@' !in first + ['/'] + rest && NoColonLast(first + ['/'] + rest)
  {
    Without(path, rest);
    NoColonAfter(first, rest);
  }

  /** A name has no `@`, and no colon after its last slash. */
  lemma NameFree(name: string, n: Name)
    requires NormalizesTo(name, n)
    ensures '@' !in name && NoColonLast(name)
  {
    var cut, split := Cut(name, '/'), SplitDomain(name);
    PathFree(split.path);
    ParseNameFree(split.domain + "/" + split.path);
    InPrefix(split.domain, split.path);
    IndexFree();
    SplitCases(name);
    if split.path == name || split.path == LIBRARY + name {
      FreeOf(name, split.path);
    } else {
      FreeBehind(cut.before, cut.after, split.path);
    }
  }

  // ----- The characters of references -------------------------------------------------------------------------------

  predicate IsRefChar(c: char) {
    IsAlnum(c) || c == '.' || c == '_' || c == '-' || c == '/' || c == ':' || c == '@' || c == '[' || c == ']'
  }

  ghost predicate RefChars(s: string) { forall i :: 0 <= i < |s| ==> IsRefChar(s[i]) }

  lemma CharsConcat(a: string, b: string)
    ensures RefChars(a + b) <==> RefChars(a) && RefChars(b)
  {
    assert forall i :: 0 <= i < |a| ==> a[i] == (a + b)[i];
    assert forall i :: |a| <= i < |a + b| ==> b[i - |a|] == (a + b)[i];
    if RefChars(a + b) {
      forall i | 0 <= i < |b| ensures IsRefChar(b[i]) { assert b[i] == (a + b)[|a| + i]; }
    }
  }

  lemma DomainNameRef(s: string)
    requires IsDomainName(s)
    ensures RefChars(s)
  {
    DomainNameChars(s);
  }

  lemma BracketedRef(s: string, rest: string)
    requires IsBracketed(s + "]") && (rest == "" || (rest[0] == ':' && IsNumber(rest[1..])))
    ensures RefChars(s + "]" + rest)
  {
    assert forall i :: 0 <= i < |s + "]"| ==> IsRefChar((s + "]")[i]);
    assert RefChars(s + "]");
    assert forall i :: 0 < i < |rest| ==> rest[i] == rest[1..][i - 1];
    CharsConcat(s + "]", rest);
  }

  lemma DomainRef(s: string)
    requires IsDomain(s)
    ensures RefChars(s)
  {
    if HasPrefix(s, "[") {
      var address := Cut(s, ']');
      BracketedRef(address.before, address.after);
    } else {
      var host := Cut(s, ':');
      DomainNameRef(host.before);
      if host.found {
        CharsConcat(host.before, ":");
        CharsConcat(host.before + ":", host.after);
      }
    }
  }

  lemma PathRef(s: string)
    requires IsPath(s)
    ensures RefChars(s)
  {
    PathChars(s);
  }

  lemma PairRef(domain: string, path: string)
    requires '/' !in domain && ParseName(domain + "/" + path).Some?
    ensures RefChars(domain) && RefChars(path)
  {
    ParsePair(domain, path);
    if IsDomain(domain) {
      DomainRef(domain);
      PathRef(path);
    } else {
      PathRef(domain + "/" + path);
      CharsConcat(domain + "/", path);
      CharsConcat(domain, "/");
    }
  }

  lemma IndexRef()
    ensures RefChars("index.docker.io") && RefChars("/")
  {
  }

  /** A name is what it splits into, but for what normalisation drops or adds. */
  lemma NameOfSplit(name: string)
    requires RefChars(SplitDomain(name).domain) && RefChars(SplitDomain(name).path)
    ensures RefChars(name)
  {
    var cut, split := Cut(name, '/'), SplitDomain(name);
    IndexRef();
    CharsConcat(LIBRARY, name);
    CharsConcat(LIBRARY, cut.after);
    if cut.found {
      CharsConcat(cut.before, "/");
      CharsConcat(cut.before + "/", cut.after);
    }
  }

  lemma NameRef(name: string, n: Name)
    requires NormalizesTo(name, n)
    ensures RefChars(name)
  {
    SplitShape(name);
    PairRef(SplitDomain(name).domain, SplitDomain(name).path);
    NameOfSplit(name);
  }

  lemma VersionRef(version: string)
    requires IsVersion(version)
    ensures RefChars(version) && version != ""
  {
    if IsDigest(version) {
      var head := version[..7];
      assert forall i :: 0 <= i < 7 ==> IsRefChar(head[i]);
      assert forall i :: 7 <= i < |version| ==> version[i] == version[7..][i - 7];
    }
  }

  lemma EmptyIsNoName(n: Name)
    ensures !NormalizesTo("", n)
  {
    assert !IsComponent("");
    CutAt("library", '/', "");
    LibrarySlash();
    assert LIBRARY == "library" + ['/'] + "";
    assert LIBRARY + "" == LIBRARY;
  }

  lemma SuffixRef(name: string, tag: string, digest: string)
    requires RefChars(name) && IsSuffix(tag, digest)
    ensures RefChars(WithDigest(WithTag(name, tag), digest))
  {
    if tag != "" { VersionRef(tag); }
    if digest != "" { VersionRef(digest); }
  }

  /** Whatever the reference parser accepts consists of letters, digits and `. _ - / : @ [ ]`. */
  lemma AcceptedChars(image: string)
    requires ParseNormalized(image).Some?
    ensures RefChars(image)
  {
    var named := ParseNormalized(image).value;
    var name, n := NameInImage(image);
    NameRef(name, n);
    SuffixRef(name, named.tag, named.digest);
  }

  /** And so do the name and the version in it, which are not empty. */
  lemma ImageChars(image: string)
    requires ParseImageReference(image).Some?
    ensures var Image(name, version) := ParseImageReference(image).value;
      RefChars(name) && RefChars(version) && name != "" && version != ""
  {
    var n := FamiliarNormalizes(image);
    var name := ParseImageReference(image).value.name;
    NameRef(name, n);
    EmptyIsNoName(n);
    ParsedVersion(image);
    VersionRef(ParseImageReference(image).value.version);
  }
}
