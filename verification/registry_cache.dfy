/**
 The registry authentication cache (server/imageproxyserver.go): any number of request threads in
 `getOrDetectRegistry` interleaved with the background cleaner.

 One event is one critical section, one detection, or the passing of time.  A thread drops the read
 lock before it detects and takes the write lock afterwards; the cleaner samples the clock before it
 waits for the write lock.  Anything may happen in between.
 */
module RegistryCache {
  import opened Wrappers

  datatype AuthMethod = AuthNone | AuthBearer

  datatype RegistryInfo = RegistryInfo(domain: string, authMethod: AuthMethod, tokenURL: string)

  datatype Entry = Entry(info: RegistryInfo, expiresAt: int)

  /** 15 minutes, in nanoseconds. */
  const TTL := 15 * 60 * 1_000_000_000

  datatype Thread =
    | Called(registry: string, repository: string)
    | Missed(registry: string, repository: string)
    | Detected(registry: string, repository: string, info: RegistryInfo, at: int)

  /** A detection that answered, and when; a write to the cache, of what was detected, and when. */
  datatype Detection = Detection(registry: string, repository: string, info: RegistryInfo, at: int)

  datatype Write = Write(detection: Detection, at: int)

  /** `sampled` is the time the cleaner read before it waits for the lock; `detections` and `writes`
      are history. */
  datatype State = State(
    clock: int,
    cache: map<string, Entry>,
    threads: map<nat, Thread>,
    sampled: Option<int>,
    detections: set<Detection>,
    writes: set<Write>)

  datatype Event =
    | Tick(elapsed: nat)
    | Call(thread: nat, registry: string, repository: string)
    | ReadCache(thread: nat)
    | Detect(thread: nat, answer: Option<RegistryInfo>)
    | WriteCache(thread: nat)
    | CleanerSamples
    | CleanerSweeps

  /** What the callers can see: each lookup and its time, and each return; None is an error. */
  datatype Observation =
    | Looked(thread: nat, registry: string, repository: string, found: Option<RegistryInfo>, time: int)
    | Returned(thread: nat, registry: string, repository: string, result: Option<RegistryInfo>)

  function CacheKey(registry: string, repository: string): string {
    registry + "/" + repository
  }

  /** The read section: a hit needs an entry that has not expired. */
  function Lookup(cache: map<string, Entry>, key: string, now: int): Option<RegistryInfo> {
    if key in cache && now < cache[key].expiresAt then Some(cache[key].info) else None
  }

  /** The write section. */
  function Stored(cache: map<string, Entry>, key: string, info: RegistryInfo, now: int): map<string, Entry> {
    cache[key := Entry(info, now + TTL)]
  }

  /** The cleaner's section, with the time it sampled. */
  function Swept(cache: map<string, Entry>, sampled: int): map<string, Entry> {
    map key | key in cache && !(cache[key].expiresAt < sampled) :: cache[key]
  }

  predicate Enabled(s: State, e: Event) {
    match e
    case Call(thread, _, _) => thread !in s.threads
    case ReadCache(thread) => thread in s.threads && s.threads[thread].Called?
    case Detect(thread, _) => thread in s.threads && s.threads[thread].Missed?
    case WriteCache(thread) => thread in s.threads && s.threads[thread].Detected?
    case CleanerSweeps => s.sampled.Some?
    case _ => true
  }

  function Next(s: State, e: Event): State {
    if !Enabled(s, e) then s
    else
      match e
      case Tick(elapsed) => s.(clock := s.clock + elapsed)
      case Call(thread, registry, repository) => s.(threads := s.threads[thread := Called(registry, repository)])
      case ReadCache(thread) =>
        var t := s.threads[thread];
        if Lookup(s.cache, CacheKey(t.registry, t.repository), s.clock).Some? then s.(threads := s.threads - {thread})
        else s.(threads := s.threads[thread := Missed(t.registry, t.repository)])
      case Detect(thread, answer) =>
        var t := s.threads[thread];
        if answer.None? then s.(threads := s.threads - {thread})
        else s.(threads := s.threads[thread := Detected(t.registry, t.repository, answer.value, s.clock)],
                detections := s.detections + {Detection(t.registry, t.repository, answer.value, s.clock)})
      case WriteCache(thread) =>
        var t := s.threads[thread];
        s.(threads := s.threads - {thread},
           cache := Stored(s.cache, CacheKey(t.registry, t.repository), t.info, s.clock),
           writes := s.writes + {Write(Detection(t.registry, t.repository, t.info, t.at), s.clock)})
      case CleanerSamples => s.(sampled := Some(s.clock))
      case CleanerSweeps => s.(cache := Swept(s.cache, s.sampled.value), sampled := None)
  }

  function Observe(s: State, e: Event): seq<Observation> {
    if !Enabled(s, e) then []
    else
      match e
      case ReadCache(thread) =>
        var t := s.threads[thread];
        var found := Lookup(s.cache, CacheKey(t.registry, t.repository), s.clock);
        [Looked(thread, t.registry, t.repository, found, s.clock)]
        + if found.Some? then [Returned(thread, t.registry, t.repository, found)] else []
      case Detect(thread, answer) =>
        var t := s.threads[thread];
        if answer.None? then [Returned(thread, t.registry, t.repository, None)] else []
      case WriteCache(thread) =>
        var t := s.threads[thread];
        [Returned(thread, t.registry, t.repository, Some(t.info))]
      case _ => []
  }

  function Run(s: State, events: seq<Event>): State
    decreases |events|
  {
    if events == [] then s else Run(Next(s, events[0]), events[1..])
  }

  function Trace(s: State, events: seq<Event>): seq<Observation>
    decreases |events|
  {
    if events == [] then [] else Observe(s, events[0]) + Trace(Next(s, events[0]), events[1..])
  }

  ghost predicate Init(s: State) {
    s.cache == map[] && s.threads == map[] && s.sampled == None && s.detections == {} && s.writes == {}
  }

  // ----- The cleaner cannot be observed ------------------------------------------------------------

  predicate OfCleaner(e: Event) {
    e.CleanerSamples? || e.CleanerSweeps?
  }

  function WithoutCleaner(events: seq<Event>): seq<Event>
    decreases |events|
  {
    if events == [] then []
    else (if OfCleaner(events[0]) then [] else [events[0]]) + WithoutCleaner(events[1..])
  }

  /** `s` may lack entries that `t` has, but only ones that expired before now. */
  ghost predicate Simulates(s: State, t: State) {
    && s.clock == t.clock && s.threads == t.threads
    && (s.sampled.Some? ==> s.sampled.value <= s.clock)
    && (forall key :: key in s.cache ==> key in t.cache && s.cache[key] == t.cache[key])
    && (forall key :: key in t.cache && key !in s.cache ==> t.cache[key].expiresAt < t.clock)
  }

  lemma CleanerStep(s: State, t: State, e: Event)
    requires Simulates(s, t) && OfCleaner(e)
    ensures Simulates(Next(s, e), t) && Observe(s, e) == []
  {
  }

  lemma OtherStep(s: State, t: State, e: Event)
    requires Simulates(s, t) && !OfCleaner(e)
    ensures Simulates(Next(s, e), Next(t, e)) && Observe(s, e) == Observe(t, e)
  {
  }

  lemma {:induction false} SimulationHolds(s: State, t: State, events: seq<Event>)
    requires Simulates(s, t)
    ensures Trace(s, events) == Trace(t, WithoutCleaner(events))
    ensures Simulates(Run(s, events), Run(t, WithoutCleaner(events)))
    decreases |events|
  {
    if events != [] {
      var e, rest := events[0], WithoutCleaner(events[1..]);
      if OfCleaner(e) {
        CleanerStep(s, t, e);
        SimulationHolds(Next(s, e), t, events[1..]);
        assert WithoutCleaner(events) == rest;
      } else {
        OtherStep(s, t, e);
        SimulationHolds(Next(s, e), Next(t, e), events[1..]);
        assert WithoutCleaner(events) == [e] + rest && ([e] + rest)[1..] == rest;
      }
    }
  }

  /** For every interleaving, the callers see the same hits, misses and results as without the cleaner. */
  lemma CleanerUnobservable(s: State, events: seq<Event>)
    requires Init(s)
    ensures Trace(s, events) == Trace(s, WithoutCleaner(events))
  {
    SimulationHolds(s, s, events);
  }

  // ----- Hits are fresh and belong to the pair asked for ---------------------------------------------

  /** A registry domain has no slash, so the cache key determines the pair. */
  lemma KeyInjective(r1: string, p1: string, r2: string, p2: string)
    requires '/' !in r1 && '/' !in r2 && CacheKey(r1, p1) == CacheKey(r2, p2)
    ensures r1 == r2 && p1 == p2
  {
    var k1, k2 := CacheKey(r1, p1), CacheKey(r2, p2);
    assert k1[|r1|] == '/' && k2[|r2|] == '/';
    assert forall i :: 0 <= i < |r1| ==> k1[i] == r1[i];
    assert forall i :: 0 <= i < |r2| ==> k2[i] == r2[i];
    assert |r1| == |r2|;
    assert r1 == k1[..|r1|] && r2 == k2[..|r2|] && p1 == k1[|r1| + 1..] && p2 == k2[|r2| + 1..];
  }

  /** The write that put `entry` under `key`. */
  ghost predicate Wrote(w: Write, key: string, entry: Entry) {
    && '/' !in w.detection.registry && CacheKey(w.detection.registry, w.detection.repository) == key
    && entry == Entry(w.detection.info, w.at + TTL)
  }

  ghost predicate HasWrite(s: State, key: string, entry: Entry) {
    exists w :: w in s.writes && Wrote(w, key, entry)
  }

  ghost predicate Inv(s: State) {
    && (forall key :: key in s.cache ==> HasWrite(s, key, s.cache[key]))
    && (forall w :: w in s.writes ==> w.detection in s.detections && w.detection.at <= w.at <= s.clock)
    && (forall thread :: thread in s.threads ==> '/' !in s.threads[thread].registry)
    && (forall thread :: thread in s.threads && s.threads[thread].Detected? ==>
          var t := s.threads[thread];
          Detection(t.registry, t.repository, t.info, t.at) in s.detections && t.at <= s.clock)
  }

  ghost predicate SlashFree(e: Event) {
    e.Call? ==> '/' !in e.registry
  }

  /** Every entry that was there already keeps its write. */
  lemma EntriesKept(s: State, t: State)
    requires Inv(s) && s.writes <= t.writes
    ensures forall key :: key in s.cache ==> HasWrite(t, key, s.cache[key])
  {
    forall key | key in s.cache ensures HasWrite(t, key, s.cache[key]) {
      var w :| w in s.writes && Wrote(w, key, s.cache[key]);
      assert w in t.writes;
    }
  }

  lemma WriteKeeps(s: State, e: Event)
    requires Inv(s) && e.WriteCache? && Enabled(s, e)
    ensures Inv(Next(s, e))
  {
    var writer, t := s.threads[e.thread], Next(s, e);
    var key := CacheKey(writer.registry, writer.repository);
    var w := Write(Detection(writer.registry, writer.repository, writer.info, writer.at), s.clock);
    EntriesKept(s, t);
    assert w in t.writes && Wrote(w, key, t.cache[key]);
    forall k | k in t.cache ensures HasWrite(t, k, t.cache[k]) {
      if k != key { assert t.cache[k] == s.cache[k]; }
    }
  }

  lemma ThreadsKeep(s: State, e: Event)
    requires Inv(s) && SlashFree(e) && (e.Call? || e.ReadCache? || e.Detect?)
    ensures Inv(Next(s, e))
  {
    EntriesKept(s, Next(s, e));
  }

  lemma ClockAndCleanerKeep(s: State, e: Event)
    requires Inv(s) && (e.Tick? || e.CleanerSamples? || e.CleanerSweeps?)
    ensures Inv(Next(s, e))
  {
    var t := Next(s, e);
    EntriesKept(s, t);
    assert forall key :: key in t.cache ==> key in s.cache && t.cache[key] == s.cache[key];
  }

  lemma NextKeeps(s: State, e: Event)
    requires Inv(s) && SlashFree(e)
    ensures Inv(Next(s, e))
    ensures s.detections <= Next(s, e).detections && s.writes <= Next(s, e).writes
  {
    match e
    case WriteCache(_) => if Enabled(s, e) { WriteKeeps(s, e); }
    case Tick(_) => ClockAndCleanerKeep(s, e);
    case CleanerSamples => ClockAndCleanerKeep(s, e);
    case CleanerSweeps => ClockAndCleanerKeep(s, e);
    case _ => ThreadsKeep(s, e);
  }

  /** A lookup that hits returns what a detection found for that very pair; it was written no earlier
      than that, no later than now, and has not outlived its time. */
  ghost predicate Fresh(o: Observation, s: State) {
    o.Looked? && o.found.Some? ==>
      exists w :: w in s.writes && w.detection in s.detections
        && w.detection == Detection(o.registry, o.repository, o.found.value, w.detection.at)
        && w.detection.at <= w.at <= o.time < w.at + TTL
  }

  lemma ObservationFresh(s: State, e: Event)
    requires Inv(s)
    ensures forall o :: o in Observe(s, e) ==> Fresh(o, s)
  {
    forall o | o in Observe(s, e) && o.Looked? && o.found.Some? ensures Fresh(o, s) {
      var key := CacheKey(o.registry, o.repository);
      var w :| w in s.writes && Wrote(w, key, s.cache[key]);
      KeyInjective(w.detection.registry, w.detection.repository, o.registry, o.repository);
    }
  }

  lemma {:induction false} HistoryGrows(s: State, events: seq<Event>)
    ensures s.detections <= Run(s, events).detections && s.writes <= Run(s, events).writes
    decreases |events|
  {
    if events != [] { HistoryGrows(Next(s, events[0]), events[1..]); }
  }

  lemma {:induction false} HitsFresh(s: State, events: seq<Event>)
    requires Inv(s) && forall i :: 0 <= i < |events| ==> SlashFree(events[i])
    ensures forall o :: o in Trace(s, events) ==> Fresh(o, Run(s, events))
    decreases |events|
  {
    if events != [] {
      NextKeeps(s, events[0]);
      ObservationFresh(s, events[0]);
      HitsFresh(Next(s, events[0]), events[1..]);
      HistoryGrows(s, events);
      forall o | o in Observe(s, events[0]) ensures Fresh(o, Run(s, events)) {
        assert Fresh(o, s);
      }
    }
  }

  /** Soundness and freshness of the cache over every run of calls with slash-free registries. */
  lemma CacheSound(s: State, events: seq<Event>)
    requires Init(s) && forall i :: 0 <= i < |events| ==> SlashFree(events[i])
    ensures forall o :: o in Trace(s, events) ==> Fresh(o, Run(s, events))
  {
    HitsFresh(s, events);
  }

  // ----- Agreement with uncached detection ------------------------------------------------------------

  /** What the detection answers when it depends on the pair alone. */
  type Registry = (string, string) -> Option<RegistryInfo>

  ghost predicate Answers(s: State, events: seq<Event>, detect: Registry)
    decreases |events|
  {
    events != [] ==>
      var e := events[0];
      && (e.Detect? && Enabled(s, e) ==>
          e.answer == detect(s.threads[e.thread].registry, s.threads[e.thread].repository))
      && Answers(Next(s, e), events[1..], detect)
  }

  ghost predicate Agrees(s: State, detect: Registry) {
    && (forall registry, repository {:trigger detect(registry, repository)} ::
          '/' !in registry && CacheKey(registry, repository) in s.cache ==>
            detect(registry, repository) == Some(s.cache[CacheKey(registry, repository)].info))
    && (forall thread :: thread in s.threads ==> '/' !in s.threads[thread].registry)
    && (forall thread :: thread in s.threads && s.threads[thread].Detected? ==>
          detect(s.threads[thread].registry, s.threads[thread].repository) == Some(s.threads[thread].info))
  }

  lemma NextAgrees(s: State, e: Event, detect: Registry)
    requires Agrees(s, detect) && SlashFree(e) && Answers(s, [e], detect)
    ensures Agrees(Next(s, e), detect)
    ensures forall o :: o in Observe(s, e) && o.Returned? ==> o.result == detect(o.registry, o.repository)
  {
    var t := Next(s, e);
    forall registry, repository | '/' !in registry && CacheKey(registry, repository) in t.cache
      ensures detect(registry, repository) == Some(t.cache[CacheKey(registry, repository)].info)
    {
      var key := CacheKey(registry, repository);
      if e.WriteCache? && Enabled(s, e) &&
          key == CacheKey(s.threads[e.thread].registry, s.threads[e.thread].repository) {
        KeyInjective(registry, repository, s.threads[e.thread].registry, s.threads[e.thread].repository);
      }
    }
  }

  lemma {:induction false} RunAgrees(s: State, events: seq<Event>, detect: Registry)
    requires Agrees(s, detect) && Answers(s, events, detect) && forall i :: 0 <= i < |events| ==> SlashFree(events[i])
    ensures forall o :: o in Trace(s, events) && o.Returned? ==> o.result == detect(o.registry, o.repository)
    decreases |events|
  {
    if events != [] {
      NextAgrees(s, events[0], detect);
      RunAgrees(Next(s, events[0]), events[1..], detect);
    }
  }

  /** If detection is a function of the pair, every call returns what uncached detection would, errors
      included, whatever the interleaving. */
  lemma CacheTransparent(s: State, events: seq<Event>, detect: Registry)
    requires Init(s) && Answers(s, events, detect) && forall i :: 0 <= i < |events| ==> SlashFree(events[i])
    ensures forall o :: o in Trace(s, events) && o.Returned? ==> o.result == detect(o.registry, o.repository)
  {
    RunAgrees(s, events, detect);
  }

  // ----- Exactly when a lookup hits ---------------------------------------------------------------------

  datatype Written = Written(info: RegistryInfo, at: int)

  /** The last write of a pair in a run, and when it was. */
  function LastWrite(s: State, events: seq<Event>, registry: string, repository: string, before: Option<Written>)
    : Option<Written>
    decreases |events|
  {
    if events == [] then before
    else
      var e := events[0];
      var last :=
        if e.WriteCache? && e.thread in s.threads && s.threads[e.thread].Detected?
           && s.threads[e.thread].registry == registry && s.threads[e.thread].repository == repository
        then Some(Written(s.threads[e.thread].info, s.clock))
        else before;
      LastWrite(Next(s, e), events[1..], registry, repository, last)
  }

  /** The cache holds the last write of the pair, unless it has expired and been cleaned away. */
  ghost predicate Remembers(s: State, registry: string, repository: string, last: Option<Written>) {
    var key := CacheKey(registry, repository);
    && (s.sampled.Some? ==> s.sampled.value <= s.clock)
    && (last.None? ==> key !in s.cache)
    && (last.Some? ==>
          if key in s.cache then s.cache[key] == Entry(last.value.info, last.value.at + TTL)
          else last.value.at + TTL < s.clock)
  }

  lemma WriteRemembers(s: State, e: Event, registry: string, repository: string, last: Option<Written>)
    requires Inv(s) && '/' !in registry && Remembers(s, registry, repository, last) && e.WriteCache? && Enabled(s, e)
    ensures var writer := s.threads[e.thread];
      Remembers(Next(s, e), registry, repository,
                if writer.registry == registry && writer.repository == repository
                then Some(Written(writer.info, s.clock)) else last)
  {
    var writer := s.threads[e.thread];
    if CacheKey(writer.registry, writer.repository) == CacheKey(registry, repository) {
      KeyInjective(writer.registry, writer.repository, registry, repository);
    }
  }

  lemma OthersRemember(s: State, e: Event, registry: string, repository: string, last: Option<Written>)
    requires Remembers(s, registry, repository, last) && !(e.WriteCache? && Enabled(s, e))
    ensures Remembers(Next(s, e), registry, repository, last)
  {
  }

  lemma {:induction false} RunRemembers(s: State, events: seq<Event>, registry: string, repository: string,
                                        before: Option<Written>)
    requires Inv(s) && '/' !in registry && forall i :: 0 <= i < |events| ==> SlashFree(events[i])
    requires Remembers(s, registry, repository, before)
    ensures Remembers(Run(s, events), registry, repository, LastWrite(s, events, registry, repository, before))
    ensures Inv(Run(s, events))
    decreases |events|
  {
    if events != [] {
      var e := events[0];
      NextKeeps(s, e);
      var last := before;
      if e.WriteCache? && Enabled(s, e) {
        WriteRemembers(s, e, registry, repository, before);
        if s.threads[e.thread].registry == registry && s.threads[e.thread].repository == repository {
          last := Some(Written(s.threads[e.thread].info, s.clock));
        }
      } else {
        OthersRemember(s, e, registry, repository, before);
      }
      RunRemembers(Next(s, e), events[1..], registry, repository, last);
    }
  }

  /** Over every run, cleaner included, a lookup hits if and only if the pair was last written less than
      fifteen minutes ago, and then returns at once what was written. */
  lemma HitsIff(s: State, events: seq<Event>, thread: nat)
    requires Init(s) && forall i :: 0 <= i < |events| ==> SlashFree(events[i])
    requires thread in Run(s, events).threads && Run(s, events).threads[thread].Called?
    ensures var now, Called(registry, repository) := Run(s, events), Run(s, events).threads[thread];
      var last := LastWrite(s, events, registry, repository, None);
      if last.Some? && now.clock < last.value.at + 15 * 60 * 1_000_000_000 then
        Observe(now, ReadCache(thread)) ==
          [Looked(thread, registry, repository, Some(last.value.info), now.clock),
           Returned(thread, registry, repository, Some(last.value.info))]
      else Observe(now, ReadCache(thread)) == [Looked(thread, registry, repository, None, now.clock)]
  {
    var Called(registry, repository) := Run(s, events).threads[thread];
    InvOf(s, events);
    RunRemembers(s, events, registry, repository, None);
  }

  lemma InvOf(s: State, events: seq<Event>)
    requires Init(s) && forall i :: 0 <= i < |events| ==> SlashFree(events[i])
    ensures Inv(Run(s, events))
  {
    RunRemembers(s, events, "", "", None);
  }
}
