/**
 Reading a WWW-Authenticate header (server/imageproxyserver.go): section 4.1 of RFC 7235, section 3 of
 RFC 6750.
 */
module AuthHeader {
  import opened Wrappers
  import opened Text

  /** `extractParam`: what stands in quotes behind the first `param="`. */
  function ExtractParam(header: string, param: string): string {
    Extract(header, param + "=")
  }

  function Extract(header: string, name: string): string {
    var start := Search(header, name + ['"']);
    if start == -1 then "" else Value(header[start + |name| + 1..])
  }

  /** Up to the closing quote, "" without one. */
  function Value(s: string): string {
    var end := Index(s, '"');
    if end == -1 then "" else s[..end]
  }

  /** `extractTokenURL` */
  function ExtractTokenURL(header: string, repository: string): string {
    var realm, service := ExtractParam(header, "realm"), ExtractParam(header, "service");
    if realm == "" then ""
    else if service != "" then realm + "?service=" + service + "&scope=" + Scope(repository)
    else realm + "?scope=" + Scope(repository)
  }

  function Scope(repository: string): string {
    "repository:" + repository + ":pull"
  }

  /** The challenge of an unauthorised probe: the token URL if the scheme is Bearer in any case. */
  function Challenge(header: string, repository: string): Option<string> {
    if |header| > 7 && ToLower(header[..7]) == "bearer " then Some(ExtractTokenURL(header, repository)) else None
  }

  // ----- What a parameter is, in terms of the parts between quotes ---------------------------------------------

  /** The part after the first part that ends in `name`, if a quote closes it. */
  function ParamOf(parts: seq<string>, name: string): string {
    if |parts| < 2 then ""
    else if HasSuffix(parts[0], name) then (if |parts| > 2 then parts[1] else "")
    else ParamOf(parts[1..], name)
  }

  lemma MatchInFirst(first: string, rest: string, name: string, i: nat)
    requires '"' !in first && '"' !in name
    ensures i <= |first| ==>
      (MatchesAt(first + ['"'] + rest, name + ['"'], i) <==> HasSuffix(first, name) && i == |first| - |name|)
  {
    var s, pattern := first + ['"'] + rest, name + ['"'];
    if i <= |first| && MatchesAt(s, pattern, i) {
      QuoteAt(first, rest, name, i);
      assert s[i..i + |name|] == first[i..];
      assert s[i..i + |pattern|][..|name|] == name;
    }
    if HasSuffix(first, name) && i == |first| - |name| {
      assert s[i..i + |pattern|] == first[i..] + ['"'];
    }
  }

  lemma QuoteAt(first: string, rest: string, name: string, i: nat)
    requires '"' !in first && '"' !in name && i <= |first| && MatchesAt(first + ['"'] + rest, name + ['"'], i)
    ensures i + |name| == |first|
  {
    var s, pattern := first + ['"'] + rest, name + ['"'];
    assert forall k :: i <= k < i + |pattern| ==> s[k] == pattern[k - i];
    assert s[|first|] == '"' && s[i + |name|] == '"';
  }

  lemma MatchInRest(first: string, rest: string, pattern: string, j: nat)
    ensures MatchesAt(first + ['"'] + rest, pattern, |first| + 1 + j) <==> MatchesAt(rest, pattern, j)
  {
    var s, n := first + ['"'] + rest, |first| + 1;
    if j + |pattern| <= |rest| { assert s[n + j..n + j + |pattern|] == rest[j..j + |pattern|]; }
  }

  lemma SearchIs(s: string, pattern: string, i: nat)
    requires MatchesAt(s, pattern, i) && forall j: nat :: j < i ==> !MatchesAt(s, pattern, j)
    ensures Search(s, pattern) == i
  {
  }

  lemma NotFound(s: string, pattern: string)
    requires forall j: nat :: j <= |s| ==> !MatchesAt(s, pattern, j)
    ensures Search(s, pattern) == -1
  {
  }

  /** Past a part that does not end in `name`, the search goes on behind its quote. */
  lemma SearchBeyond(first: string, rest: string, name: string)
    requires '"' !in first && '"' !in name && !HasSuffix(first, name)
    ensures var found := Search(rest, name + ['"']);
      Search(first + ['"'] + rest, name + ['"']) == if found == -1 then -1 else |first| + 1 + found
  {
    var s, pattern, n := first + ['"'] + rest, name + ['"'], |first| + 1;
    var found := Search(rest, pattern);
    forall j: nat | j < n ensures !MatchesAt(s, pattern, j) { MatchInFirst(first, rest, name, j); }
    forall j: nat | n <= j && (found == -1 || j < n + found) ensures !MatchesAt(s, pattern, j) {
      MatchInRest(first, rest, pattern, j - n);
    }
    if found == -1 {
      NotFound(s, pattern);
    } else {
      MatchInRest(first, rest, pattern, found);
      SearchIs(s, pattern, n + found);
    }
  }

  lemma SearchHere(first: string, rest: string, name: string)
    requires '"' !in first && '"' !in name && HasSuffix(first, name)
    ensures Search(first + ['"'] + rest, name + ['"']) == |first| - |name|
  {
    var s, pattern := first + ['"'] + rest, name + ['"'];
    forall j: nat | j <= |first| - |name| ensures MatchesAt(s, pattern, j) <==> j == |first| - |name| {
      MatchInFirst(first, rest, name, j);
    }
    SearchIs(s, pattern, |first| - |name|);
  }

  lemma ValueIs(s: string)
    ensures Value(s) == if |Split(s, '"')| > 1 then Split(s, '"')[0] else ""
  {
  }

  lemma ExtractHere(first: string, rest: string, name: string)
    requires '"' !in first && '"' !in name && HasSuffix(first, name)
    ensures Extract(first + ['"'] + rest, name) == Value(rest)
  {
    SearchHere(first, rest, name);
    Drop(first, rest, 0);
  }

  lemma ExtractBeyond(first: string, rest: string, name: string)
    requires '"' !in first && '"' !in name && !HasSuffix(first, name)
    ensures Extract(first + ['"'] + rest, name) == Extract(rest, name)
  {
    SearchBeyond(first, rest, name);
    var found := Search(rest, name + ['"']);
    if found != -1 { Drop(first, rest, found + |name| + 1); }
  }

  lemma Drop(first: string, rest: string, k: nat)
    requires k <= |rest|
    ensures (first + ['"'] + rest)[|first| + 1 + k..] == rest[k..]
  {
  }

  lemma MatchHasQuote(s: string, name: string, j: nat)
    ensures MatchesAt(s, name + ['"'], j) ==> '"' in s
  {
    if MatchesAt(s, name + ['"'], j) { assert s[j + |name|] == s[j..j + |name| + 1][|name|]; }
  }

  lemma ExtractNothing(s: string, name: string)
    requires '"' !in s
    ensures Extract(s, name) == ""
  {
    forall j: nat ensures !MatchesAt(s, name + ['"'], j) { MatchHasQuote(s, name, j); }
    NotFound(s, name + ['"']);
  }

  /** For every header, `extractParam` is the part behind the first part that ends in `param=`.  A match
      never straddles a quote. */
  lemma {:induction false} ExtractIs(header: string, name: string)
    requires '"' !in name
    ensures Extract(header, name) == ParamOf(Split(header, '"'), name)
    decreases |header|
  {
    var cut := Cut(header, '"');
    if !cut.found {
      ExtractNothing(header, name);
    } else if HasSuffix(cut.before, name) {
      ExtractHere(cut.before, cut.after, name);
      ValueIs(cut.after);
    } else {
      ExtractBeyond(cut.before, cut.after, name);
      ExtractIs(cut.after, name);
    }
  }

  // ----- Bearer challenges -----------------------------------------------------------------------------------------

  lemma SplitStep(s: string, part: string, rest: string, parts: seq<string>)
    requires '"' !in part && s == part + ['"'] + rest && Split(rest, '"') == parts
    ensures Split(s, '"') == [part] + parts
  {
    SplitCons(part, '"', rest);
  }

  lemma SplitChallenge(head: string, realm: string, middle: string, service: string, suffix: string)
    requires '"' !in head && '"' !in realm && '"' !in middle && '"' !in service
    ensures Split(head + ['"'] + (realm + ['"'] + (middle + ['"'] + (service + ['"'] + suffix))), '"')
         == [head, realm, middle, service] + Split(suffix, '"')
  {
    var parts := Split(suffix, '"');
    var s3 := service + ['"'] + suffix;
    var s2 := middle + ['"'] + s3;
    var s1 := realm + ['"'] + s2;
    SplitStep(s3, service, suffix, parts);
    SplitStep(s2, middle, s3, [service] + parts);
    SplitStep(s1, realm, s2, [middle] + ([service] + parts));
    SplitStep(head + ['"'] + s1, head, s1, [realm] + ([middle] + ([service] + parts)));
    Listed(head, realm, middle, service, parts);
  }

  lemma Listed(a: string, b: string, c: string, d: string, parts: seq<string>)
    ensures [a] + ([b] + ([c] + ([d] + parts))) == [a, b, c, d] + parts
  {
  }

  /** `Bearer realm="...",service="..."` and anything after it. */
  function Header(scheme: string, realm: string, service: string, suffix: string): string {
    scheme + "realm=" + ['"'] + (realm + ['"'] + (",service=" + ['"'] + (service + ['"'] + suffix)))
  }

  lemma ParamHere(parts: seq<string>, name: string)
    requires |parts| > 2 && HasSuffix(parts[0], name)
    ensures ParamOf(parts, name) == parts[1]
  {
  }

  lemma ParamBeyond(parts: seq<string>, name: string)
    requires |parts| > 2 && !HasSuffix(parts[0], name)
    ensures ParamOf(parts, name) == ParamOf(parts[1..], name)
  {
  }

  lemma RealmIsFirst(scheme: string)
    requires |scheme| == 7
    ensures HasSuffix(scheme + "realm=", "realm=") && !HasSuffix(scheme + "realm=", "service=")
  {
    var s := scheme + "realm=";
    assert s[|s| - 6..] == "realm=";
    assert s[|s| - 2] == 'm' && "service="[6] == 'e';
    assert |"service="| == 8 && s[|s| - 8..][6] == s[|s| - 2];
  }

  lemma MiddleIsService()
    ensures HasSuffix(",service=", "service=") && '"' !in ",service="
  {
    assert ",service="[1..] == "service=";
  }

  lemma LowerFree(s: string, lower: string, c: char)
    requires ToLower(s) == lower && c !in lower && LowerChar(c) == c
    ensures c !in s
  {
    forall i | 0 <= i < |s| ensures s[i] != c { assert lower[i] in lower; }
  }

  lemma BearerFree()
    ensures '"' !in "bearer " && |"bearer "| == 7 && LowerChar('"') == '"'
  {
  }

  lemma RealmFree(scheme: string)
    requires '"' !in scheme
    ensures '"' !in scheme + "realm="
  {
    assert '"' !in "realm=";
  }

  lemma SchemeFree(scheme: string)
    requires ToLower(scheme) == "bearer "
    ensures |scheme| == 7 && '"' !in scheme + "realm="
  {
    BearerFree();
    LowerFree(scheme, "bearer ", '"');
    RealmFree(scheme);
  }

  /** The two parameters of a Bearer challenge. */
  lemma ChallengeParams(scheme: string, realm: string, service: string, suffix: string)
    requires ToLower(scheme) == "bearer " && '"' !in realm && '"' !in service
    ensures var header := Header(scheme, realm, service, suffix);
      && ExtractParam(header, "realm") == realm
      && ExtractParam(header, "service") == if HasSuffix(realm, "service=") then ",service=" else service
  {
    SchemeFree(scheme);
    MiddleIsService();
    RealmIsFirst(scheme);
    var header := Header(scheme, realm, service, suffix);
    SplitChallenge(scheme + "realm=", realm, ",service=", service, suffix);
    var parts := [scheme + "realm=", realm, ",service=", service] + Split(suffix, '"');
    assert header == scheme + "realm=" + ['"'] + (realm + ['"'] + (",service=" + ['"'] + (service + ['"'] + suffix)));
    ParamHere(parts, "realm=");
    ServiceParam(parts);
    NamesSplit();
    ExtractIs(header, "realm=");
    ExtractIs(header, "service=");
  }

  lemma NamesSplit()
    ensures "realm" + "=" == "realm=" && "service" + "=" == "service=" && '"' !in "realm=" && '"' !in "service="
  {
  }

  lemma ServiceParam(parts: seq<string>)
    requires |parts| > 4 && !HasSuffix(parts[0], "service=") && HasSuffix(parts[2], "service=")
    ensures ParamOf(parts, "service=") == if HasSuffix(parts[1], "service=") then parts[2] else parts[3]
  {
    ParamBeyond(parts, "service=");
    assert parts[1..][0] == parts[1] && parts[1..][1] == parts[2];
    if HasSuffix(parts[1], "service=") {
      ParamHere(parts[1..], "service=");
    } else {
      ParamBeyond(parts[1..], "service=");
      assert parts[1..][1..] == parts[2..] && parts[2..][0] == parts[2] && parts[2..][1] == parts[3];
      ParamHere(parts[2..], "service=");
    }
  }

  /** The token URL names exactly the realm and the service, with the scope of the repository, if and only
      if the realm does not end in `service=`; if it does, what is taken for the service is `,service=`. */
  lemma TokenURLIff(scheme: string, realm: string, service: string, suffix: string, repository: string)
    requires ToLower(scheme) == "bearer " && '"' !in realm && '"' !in service && realm != "" && service != ""
    ensures
      Challenge(Header(scheme, realm, service, suffix), repository) ==
        Some(realm + "?service=" + service + "&scope=" + ("repository:" + repository + ":pull")) <==>
      !HasSuffix(realm, "service=") || service == ",service="
  {
    var header := Header(scheme, realm, service, suffix);
    SchemeFree(scheme);
    SchemeTaken(scheme, realm, service, suffix);
    ChallengeParams(scheme, realm, service, suffix);
    MiddleIsService();
    if HasSuffix(realm, "service=") {
      SameService(realm + "?service=", ",service=", service, "&scope=" + Scope(repository));
    }
    Chain(realm, service, Scope(repository));
    Chain(realm, ",service=", Scope(repository));
  }

  lemma Chain(realm: string, service: string, scope: string)
    ensures realm + "?service=" + service + "&scope=" + scope == realm + "?service=" + service + ("&scope=" + scope)
  {
  }

  lemma SchemeTaken(scheme: string, realm: string, service: string, suffix: string)
    requires |scheme| == 7
    ensures |Header(scheme, realm, service, suffix)| > 7 && Header(scheme, realm, service, suffix)[..7] == scheme
  {
  }

  lemma SameService(a: string, x: string, y: string, b: string)
    ensures a + x + b == a + y + b <==> x == y
  {
    if a + x + b == a + y + b {
      assert |x| == |y|;
      assert (a + x + b)[|a|..|a| + |x|] == x;
      assert (a + y + b)[|a|..|a| + |y|] == y;
    }
  }

  // ----- Other challenges ----------------------------------------------------------------------------------------

  ghost predicate BlankLast(s: string) {
    |s| == 7 && s[6] == ' ' && forall i :: 0 <= i < 6 ==> s[i] != ' '
  }

  lemma BearerIs()
    ensures BlankLast("bearer ") && "bearer" + " " == "bearer " && |"bearer"| == 6
  {
  }

  lemma BlankKept(front: string)
    requires BlankLast(ToLower(front))
    ensures BlankLast(front)
  {
    forall i | 0 <= i < 7 ensures front[i] == ' ' <==> ToLower(front)[i] == ' ' {
      assert ToLower(front)[i] == LowerChar(front[i]);
    }
  }

  /** The scheme ends at the first blank. */
  lemma FirstBlank(scheme: string, rest: string)
    requires ' ' !in scheme && rest != "" && rest[0] == ' '
    requires |scheme + rest| >= 7 && BlankLast((scheme + rest)[..7])
    ensures |scheme| == 6
  {
    var front := (scheme + rest)[..7];
    forall i | 0 <= i < |scheme| && i < 7 ensures front[i] != ' ' { assert front[i] == scheme[i]; }
    assert |scheme| < 7 ==> front[|scheme|] == rest[0];
  }

  lemma LowerAppend(scheme: string, blank: string)
    requires blank == " "
    ensures ToLower(scheme + blank) == ToLower(scheme) + blank
  {
    assert LowerChar(' ') == ' ';
  }

  lemma SchemeFront(scheme: string, blank: string, bearer: string, front: string)
    requires |scheme| == |bearer| && blank == " " && front == scheme + blank
    ensures ToLower(front) == bearer + blank <==> ToLower(scheme) == bearer
  {
    LowerAppend(scheme, blank);
    assert (ToLower(scheme) + blank)[..|bearer|] == ToLower(scheme);
    assert (bearer + blank)[..|bearer|] == bearer;
  }

  /** Exactly a challenge whose scheme is Bearer, in any case, is answered. */
  lemma SchemeDecides(scheme: string, params: string, repository: string)
    requires ' ' !in scheme && params != ""
    ensures Challenge(scheme + " " + params, repository).Some? <==> ToLower(scheme) == "bearer"
  {
    BearerIs();
    SchemeAt(scheme, " " + params, scheme + " " + params);
  }

  lemma SchemeAt(scheme: string, rest: string, header: string)
    requires ' ' !in scheme && |rest| > 1 && rest[0] == ' ' && header == scheme + rest
    ensures |header| > 7 && ToLower(header[..7]) == "bearer " <==> ToLower(scheme) == "bearer"
  {
    BearerIs();
    if |scheme| == 6 {
      assert header[..7] == scheme + " ";
      SchemeFront(scheme, " ", "bearer", header[..7]);
    } else if |header| > 7 && ToLower(header[..7]) == "bearer " {
      BlankKept(header[..7]);
      FirstBlank(scheme, rest);
      assert false;
    }
  }

  ghost predicate Mentions(parts: seq<string>, name: string) {
    exists i :: 0 <= i < |parts| && HasSuffix(parts[i], name)
  }

  lemma {:induction false} NotMentioned(parts: seq<string>, name: string)
    requires !Mentions(parts, name)
    ensures ParamOf(parts, name) == ""
  {
    if |parts| >= 2 {
      assert forall i :: 0 <= i < |parts| - 1 ==> parts[1..][i] == parts[i + 1];
      NotMentioned(parts[1..], name);
    }
  }

  /** Without a realm there is no token URL. */
  lemma NoRealm(scheme: string, params: string, repository: string)
    requires ToLower(scheme) == "bearer" && ' ' !in scheme && params != ""
    requires !Mentions(Split(scheme + " " + params, '"'), "realm=")
    ensures Challenge(scheme + " " + params, repository) == Some("")
  {
    SchemeDecides(scheme, params, repository);
    NamesSplit();
    ExtractIs(scheme + " " + params, "realm=");
    NotMentioned(Split(scheme + " " + params, '"'), "realm=");
  }

  /** `Bearer realm="..."` and anything after it. */
  function RealmHeader(scheme: string, realm: string, suffix: string): string {
    scheme + "realm=" + ['"'] + (realm + ['"'] + suffix)
  }

  /** Without a service the token URL is the realm with the scope. */
  lemma NoService(scheme: string, realm: string, suffix: string, repository: string)
    requires ToLower(scheme) == "bearer " && '"' !in realm && realm != ""
    requires !HasSuffix(realm, "service=") && !Mentions(Split(suffix, '"'), "service=")
    ensures Challenge(RealmHeader(scheme, realm, suffix), repository) ==
      Some(realm + "?scope=" + ("repository:" + repository + ":pull"))
  {
    var header := RealmHeader(scheme, realm, suffix);
    SchemeFree(scheme);
    RealmFront(scheme, realm, suffix);
    RealmOnly(scheme, realm, suffix);
    RealmAlone(header, realm, repository);
  }

  lemma RealmOnly(scheme: string, realm: string, suffix: string)
    requires |scheme| == 7 && '"' !in scheme + "realm=" && '"' !in realm
    requires !HasSuffix(realm, "service=") && !Mentions(Split(suffix, '"'), "service=")
    ensures ExtractParam(RealmHeader(scheme, realm, suffix), "realm") == realm
    ensures ExtractParam(RealmHeader(scheme, realm, suffix), "service") == ""
  {
    RealmIsFirst(scheme);
    SplitRealm(scheme + "realm=", realm, suffix);
    RealmParams(scheme + "realm=", realm, Split(suffix, '"'));
    RealmExtracts(RealmHeader(scheme, realm, suffix), realm);
  }

  lemma RealmFront(scheme: string, realm: string, suffix: string)
    requires |scheme| == 7
    ensures |RealmHeader(scheme, realm, suffix)| > 7 && RealmHeader(scheme, realm, suffix)[..7] == scheme
  {
  }

  lemma RealmAlone(header: string, realm: string, repository: string)
    requires |header| > 7 && ToLower(header[..7]) == "bearer "
    requires ExtractParam(header, "realm") == realm != "" && ExtractParam(header, "service") == ""
    ensures Challenge(header, repository) == Some(realm + "?scope=" + ("repository:" + repository + ":pull"))
  {
  }

  lemma RealmExtracts(header: string, realm: string)
    requires ParamOf(Split(header, '"'), "realm=") == realm && ParamOf(Split(header, '"'), "service=") == ""
    ensures ExtractParam(header, "realm") == realm && ExtractParam(header, "service") == ""
  {
    NamesSplit();
    ExtractIs(header, "realm=");
    ExtractIs(header, "service=");
  }

  lemma SplitRealm(head: string, realm: string, suffix: string)
    requires '"' !in head && '"' !in realm
    ensures Split(head + ['"'] + (realm + ['"'] + suffix), '"') == [head] + ([realm] + Split(suffix, '"'))
  {
    var parts := Split(suffix, '"');
    SplitStep(realm + ['"'] + suffix, realm, suffix, parts);
    SplitStep(head + ['"'] + (realm + ['"'] + suffix), head, realm + ['"'] + suffix, [realm] + parts);
  }

  lemma RealmParams(head: string, realm: string, parts: seq<string>)
    requires HasSuffix(head, "realm=") && !HasSuffix(head, "service=") && !HasSuffix(realm, "service=")
    requires parts != [] && !Mentions(parts, "service=")
    ensures ParamOf([head] + ([realm] + parts), "realm=") == realm
    ensures ParamOf([head] + ([realm] + parts), "service=") == ""
  {
    var all := [head] + ([realm] + parts);
    ParamHere(all, "realm=");
    assert all[0] == head && all[1] == realm;
    forall i | 0 <= i < |all| ensures !HasSuffix(all[i], "service=") {
      if i >= 2 { assert all[i] == parts[i - 2]; }
    }
    NotMentioned(all, "service=");
  }
}
