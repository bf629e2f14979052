/** Finding the HTTPBootConfigs of a client behind proxies (`handleHTTPBoot` in server/bootserver.go). */
module BootServer {
  import opened Wrappers
  import opened Text

  // ----- The X-Forwarded-For header --------------------------------------------------------------------------

  function Trimmed(parts: seq<string>): seq<string> {
    if parts == [] then []
    else
      var ip := TrimSpace(parts[0]);
      (if ip == "" then [] else [ip]) + Trimmed(parts[1..])
  }

  /** What the header says: the non-empty items. */
  function Listed(header: string): seq<string> {
    Trimmed(Split(header, ','))
  }

  lemma TrimmedCons(part: string, rest: seq<string>)
    ensures Trimmed([part] + rest) == Trimmed([part]) + Trimmed(rest)
  {
    assert ([part] + rest)[1..] == rest && [part][1..] == [];
    assert Trimmed([]) == [];
  }

  lemma {:induction false} TrimmedConcat(a: seq<string>, b: seq<string>)
    ensures Trimmed(a + b) == Trimmed(a) + Trimmed(b)
  {
    if a == [] {
      assert a + b == b;
    } else {
      TrimmedConcat(a[1..], b);
      TrimmedCons(a[0], a[1..]);
      TrimmedCons(a[0], a[1..] + b);
      assert a == [a[0]] + a[1..] && a + b == [a[0]] + (a[1..] + b);
    }
  }

  lemma EmptyHeader()
    ensures Listed("") == []
  {
    assert Split("", ',') == [""];
    assert TrimSpace("") == "";
  }

  /** The listed IPs are the non-empty items of the header without the space around them. */
  lemma {:induction false} TrimmedSays(parts: seq<string>, ip: string)
    ensures ip in Trimmed(parts) <==> ip != "" && exists i :: 0 <= i < |parts| && TrimSpace(parts[i]) == ip
  {
    if parts != [] {
      TrimmedSays(parts[1..], ip);
      assert forall i :: 0 < i < |parts| ==> parts[i] == parts[1..][i - 1];
    }
  }

  predicate IsPart(header: string, ip: string) {
    exists i :: 0 <= i < |Split(header, ',')| && TrimSpace(Split(header, ',')[i]) == ip
  }

  lemma ListedSays(header: string)
    ensures forall ip :: ip in Listed(header) <==> ip != "" && IsPart(header, ip)
  {
    forall ip ensures ip in Listed(header) <==> ip != "" && IsPart(header, ip) { TrimmedSays(Split(header, ','), ip); }
  }

  /** A header without a comma is one item. */
  lemma OneItem(header: string)
    requires ',' !in header
    ensures Listed(header) == if TrimSpace(header) == "" then [] else [TrimSpace(header)]
  {
    assert Split(header, ',') == [header];
    assert Trimmed([header][1..]) == [];
  }

  method ClientIPs(header: string) returns (clientIPs: seq<string>)
    ensures clientIPs == Listed(header)
    ensures forall ip :: ip in clientIPs <==> ip != "" && IsPart(header, ip)
  {
    ListedSays(header);
    EmptyHeader();
    clientIPs := [];
    if header != "" {
      clientIPs := NonEmptyItems(Split(header, ','));
    }
  }

  method NonEmptyItems(items: seq<string>) returns (ips: seq<string>)
    ensures ips == Trimmed(items)
  {
    ips := [];
    for i := 0 to |items|
      invariant ips == Trimmed(items[..i])
    {
      var trimmedIP := TrimSpace(items[i]);
      assert items[..i + 1] == items[..i] + [items[i]];
      TrimmedConcat(items[..i], [items[i]]);
      if trimmedIP != "" {
        ips := ips + [trimmedIP];
      }
    }
    assert items[..|items|] == items;
  }

  /** A proxy that appends its own hop adds to the list and changes nothing before it. */
  lemma HeaderConcat(a: string, b: string)
    ensures Listed(a + "," + b) == Listed(a) + Listed(b)
  {
    SplitConcat(a, ',', b);
    TrimmedConcat(Split(a, ','), Split(b, ','));
  }

  // ----- Trimmed items ------------------------------------------------------------------------------------------

  ghost predicate IsTrimmed(s: string) {
    s != "" ==> !IsSpace(s[0]) && !IsSpace(s[|s| - 1])
  }

  lemma TrimmedFixed(s: string)
    requires IsTrimmed(s)
    ensures TrimSpace(s) == s
  {
  }

  /** Trimming leaves a part of the string. */
  lemma {:induction false} TrimLeftPart(s: string)
    ensures var r := TrimLeft(s); |r| <= |s| && r == s[|s| - |r|..] && (r != "" ==> !IsSpace(r[0]))
  {
    if s != "" && IsSpace(s[0]) { TrimLeftPart(s[1..]); }
  }

  lemma {:induction false} TrimRightPart(s: string)
    ensures var r := TrimRight(s); |r| <= |s| && r == s[..|r|] && (r != "" ==> !IsSpace(r[|r| - 1]))
  {
    if s != "" && IsSpace(s[|s| - 1]) { TrimRightPart(s[..|s| - 1]); }
  }

  lemma TrimSpaceIs(s: string, c: char)
    ensures IsTrimmed(TrimSpace(s)) && (c !in s ==> c !in TrimSpace(s))
  {
    TrimLeftPart(s);
    TrimRightPart(TrimLeft(s));
  }

  ghost predicate IsItem(ip: string) {
    ip != "" && ',' !in ip && IsTrimmed(ip)
  }

  lemma {:induction false} TrimmedItems(parts: seq<string>)
    requires forall part :: part in parts ==> ',' !in part
    ensures forall ip :: ip in Trimmed(parts) ==> IsItem(ip)
  {
    if parts != [] {
      TrimSpaceIs(parts[0], ',');
      TrimmedItems(parts[1..]);
    }
  }

  lemma {:induction false} ItemsFixed(ips: seq<string>)
    requires forall ip :: ip in ips ==> IsItem(ip)
    ensures Trimmed(ips) == ips
  {
    if ips != [] {
      assert ips[0] in ips && ips == [ips[0]] + ips[1..];
      TrimmedFixed(ips[0]);
      ItemsFixed(ips[1..]);
    }
  }

  /** The `ClientIPs` of the response, joined by commas, reads back as the same list, for every header. */
  lemma JoinedReadsBack(header: string)
    ensures Listed(Join(Listed(header), ',')) == Listed(header)
  {
    var ips := Listed(header);
    SplitFree(header, ',');
    TrimmedItems(Split(header, ','));
    if ips == [] {
      EmptyHeader();
    } else {
      SplitJoin(ips, ',');
      ItemsFixed(ips);
    }
  }

  // ----- The lookup ---------------------------------------------------------------------------------------------

  /** The configs listed for an IP; a list that fails counts as empty. */
  function ConfigsOf<T>(answers: map<string, Result<seq<T>>>, ip: string): seq<T> {
    if ip in answers && answers[ip].Ok? then answers[ip].value else []
  }

  /** The first IP with any configs decides. */
  function Lookup<T>(answers: map<string, Result<seq<T>>>, ips: seq<string>): seq<T> {
    if ips == [] then []
    else if ConfigsOf(answers, ips[0]) != [] then ConfigsOf(answers, ips[0])
    else Lookup(answers, ips[1..])
  }

  /** Nothing is listed for the IP: it is unknown, its list fails or its list is empty. */
  ghost predicate Misses<T>(answers: map<string, Result<seq<T>>>, ip: string) {
    ip !in answers || answers[ip] == Err || answers[ip] == Ok([])
  }

  ghost predicate FirstHit<T>(answers: map<string, Result<seq<T>>>, ips: seq<string>, configs: seq<T>, i: int) {
    && 0 <= i < |ips| && ips[i] in answers && answers[ips[i]] == Ok(configs)
    && forall k :: 0 <= k < i ==> Misses(answers, ips[k])
  }

  lemma {:induction false} LookupSays<T>(answers: map<string, Result<seq<T>>>, ips: seq<string>)
    ensures var configs := Lookup(answers, ips);
      && (configs != [] ==> exists i :: FirstHit(answers, ips, configs, i))
      && (configs == [] ==> forall i :: 0 <= i < |ips| ==> Misses(answers, ips[i]))
  {
    if ips != [] {
      var configs := Lookup(answers, ips);
      if ConfigsOf(answers, ips[0]) != [] {
        assert FirstHit(answers, ips, configs, 0);
      } else {
        LookupSays(answers, ips[1..]);
        if configs != [] {
          var i :| FirstHit(answers, ips[1..], configs, i);
          HitShifts(answers, ips, configs, i);
        }
        forall i | 0 < i < |ips| && configs == [] ensures Misses(answers, ips[i]) {
          assert ips[i] == ips[1..][i - 1];
        }
      }
    }
  }

  lemma HitShifts<T>(answers: map<string, Result<seq<T>>>, ips: seq<string>, configs: seq<T>, i: int)
    requires ips != [] && Misses(answers, ips[0]) && FirstHit(answers, ips[1..], configs, i)
    ensures FirstHit(answers, ips, configs, i + 1)
  {
    forall k | 0 < k < i + 1 ensures Misses(answers, ips[k]) { assert ips[k] == ips[1..][k - 1]; }
  }

  method FindConfigs<T>(answers: map<string, Result<seq<T>>>, clientIPs: seq<string>) returns (configs: seq<T>)
    ensures configs == Lookup(answers, clientIPs)
    ensures configs != [] ==> exists i :: FirstHit(answers, clientIPs, configs, i)
    ensures configs == [] ==> forall i :: 0 <= i < |clientIPs| ==> Misses(answers, clientIPs[i])
  {
    LookupSays(answers, clientIPs);
    configs := [];
    assert clientIPs[0..] == clientIPs;
    for i := 0 to |clientIPs|
      invariant configs == [] && Lookup(answers, clientIPs) == Lookup(answers, clientIPs[i..])
    {
      assert clientIPs[i..][0] == clientIPs[i] && clientIPs[i..][1..] == clientIPs[i + 1..];
      var ip := clientIPs[i];
      if ip in answers && answers[ip].Err? {
        continue;
      }
      configs := ConfigsOf(answers, ip);
      if |configs| > 0 {
        break;
      }
    }
  }

  lemma {:induction false} LookupConcat<T>(answers: map<string, Result<seq<T>>>, a: seq<string>, b: seq<string>)
    ensures Lookup(answers, a + b) == if Lookup(answers, a) != [] then Lookup(answers, a) else Lookup(answers, b)
  {
    if a == [] {
      assert a + b == b;
    } else {
      LookupConcat(answers, a[1..], b);
      assert (a + b)[1..] == a[1..] + b;
    }
  }

  /** Hops appended by proxies are only looked at when nothing is found for the ones before. */
  lemma FirstHopDecides<T>(answers: map<string, Result<seq<T>>>, client: string, hops: string)
    ensures Lookup(answers, Listed(client + "," + hops)) ==
      if Lookup(answers, Listed(client)) != [] then Lookup(answers, Listed(client)) else Lookup(answers, Listed(hops))
  {
    HeaderConcat(client, hops);
    LookupConcat(answers, Listed(client), Listed(hops));
  }
}
