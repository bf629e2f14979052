/** The references accepted for the default UKI (internal/uki/oci.go): a repository with a tag, a digest, or both. */
module UkiReference {
  import opened Wrappers
  import opened Text
  import opened Reference

  datatype Parsed = Parsed(repository: string, imageRef: string)

  /** `parseOCIReferenceForUKI`; `lastTagSeparatorIndex` is `TagSeparator`. */
  function ParseOCIReferenceForUKI(image: string): Result<Parsed> {
    var cut := Cut(image, '@');
    if cut.found then
      var tagSep := TagSeparator(cut.before);
      var repository := if tagSep >= 0 then cut.before[..tagSep] else cut.before;
      if cut.before == "" || cut.after == "" || repository == "" then Err
      else Ok(Parsed(repository, cut.before + "@" + cut.after))
    else
      var tagSep := TagSeparator(image);
      if tagSep < 0 || tagSep == 0 || tagSep == |image| - 1 then Err
      else Ok(Parsed(image[..tagSep], image))
  }

  // ----- The references as printed -------------------------------------------------------------------------------

  predicate IsPlain(tag: string) { '@' !in tag && ':' !in tag && '/' !in tag }

  function Base(repository: string, tag: Option<string>): string {
    if tag.Some? then repository + ":" + tag.value else repository
  }

  function Print(repository: string, tag: Option<string>, digest: Option<string>): string {
    if digest.Some? then Base(repository, tag) + "@" + digest.value else Base(repository, tag)
  }

  /** A non-empty repository with a tag, a digest, or both; a tag may be empty only before a digest; the
      last component of a repository without a tag has no colon. */
  predicate IsForm(repository: string, tag: Option<string>, digest: Option<string>) {
    && repository != "" && '@' !in repository
    && (tag.Some? ==> IsPlain(tag.value))
    && (tag.None? ==> TagSeparator(repository) < 0)
    && (digest.Some? ==> digest.value != "")
    && (digest.None? ==> tag.Some? && tag.value != "")
  }

  lemma TagSeparatorPrinted(repository: string, tag: string)
    requires IsPlain(tag)
    ensures TagSeparator(repository + ":" + tag) == |repository|
  {
    var s := repository + ":" + tag;
    assert s[|repository|] == ':' && forall i :: |repository| < i < |s| ==> s[i] == tag[i - |repository| - 1];
  }

  /** Where the tag starts: a colon with no colon and no slash behind it. */
  lemma TagSeparatorFound(s: string)
    requires TagSeparator(s) >= 0
    ensures var i := TagSeparator(s);
      i < |s| && s == s[..i] + ":" + s[i + 1..] && ':' !in s[i + 1..] && '/' !in s[i + 1..]
  {
    var i := TagSeparator(s);
  }

  lemma PrintedCut(repository: string, tag: Option<string>, digest: Option<string>)
    requires IsForm(repository, tag, digest)
    ensures Cut(Print(repository, tag, digest), '@') ==
      if digest.Some? then Pieces(Base(repository, tag), digest.value, true)
          else Pieces(Base(repository, tag), "", false)
  {
    assert '@' !in Base(repository, tag);
    if digest.Some? { CutAt(Base(repository, tag), '@', digest.value); }
  }

  /** Parsing undoes printing, for every form, and keeps the whole reference for the registry. */
  lemma ParsePrint(repository: string, tag: Option<string>, digest: Option<string>)
    requires IsForm(repository, tag, digest)
    ensures var image := Print(repository, tag, digest);
      ParseOCIReferenceForUKI(image) == Ok(Parsed(repository, image))
  {
    PrintedCut(repository, tag, digest);
    if tag.Some? {
      TagSeparatorPrinted(repository, tag.value);
      assert Base(repository, tag)[..|repository|] == repository;
    }
  }

  lemma FromBase(base: string) returns (repository: string, tag: Option<string>)
    requires '@' !in base
    ensures repository == if TagSeparator(base) >= 0 then base[..TagSeparator(base)] else base
    ensures base == Base(repository, tag) && '@' !in repository
    ensures tag.None? ==> TagSeparator(repository) < 0
    ensures tag.Some? ==> IsPlain(tag.value) && |tag.value| == |base| - TagSeparator(base) - 1
    ensures tag.Some? <==> TagSeparator(base) >= 0
  {
    var i := TagSeparator(base);
    if i >= 0 {
      TagSeparatorFound(base);
      repository, tag := base[..i], Some(base[i + 1..]);
    } else {
      repository, tag := base, None;
    }
  }

  /** Whatever is accepted has one of the forms. */
  lemma AcceptedIsForm(image: string) returns (tag: Option<string>, digest: Option<string>)
    requires ParseOCIReferenceForUKI(image).Ok?
    ensures var parsed := ParseOCIReferenceForUKI(image).value;
      parsed.imageRef == image && IsForm(parsed.repository, tag, digest) &&
          image == Print(parsed.repository, tag, digest)
  {
    var cut := Cut(image, '@');
    var repository;
    repository, tag := FromBase(cut.before);
    digest := if cut.found then Some(cut.after) else None;
  }

  /** `image` is accepted with this repository if and only if it is that repository printed with a tag, a
      digest, or both. */
  lemma AcceptedIff(image: string, repository: string)
    ensures ParseOCIReferenceForUKI(image) == Ok(Parsed(repository, image)) <==>
      exists tag, digest :: IsForm(repository, tag, digest) && image == Print(repository, tag, digest)
  {
    if ParseOCIReferenceForUKI(image) == Ok(Parsed(repository, image)) {
      var tag, digest := AcceptedIsForm(image);
    }
    forall tag, digest | IsForm(repository, tag, digest) && image == Print(repository, tag, digest)
      ensures ParseOCIReferenceForUKI(image) == Ok(Parsed(repository, image))
    {
      ParsePrint(repository, tag, digest);
    }
  }

  /** A reference without an `@` and without a colon after the last slash is rejected, host:port or not. */
  lemma RejectedWithoutTag(image: string)
    requires '@' !in image && forall i :: LastIndex(image, '/') < i < |image| ==> image[i] != ':'
    ensures ParseOCIReferenceForUKI(image).Err?
  {
    assert !Cut(image, '@').found;
  }
}
