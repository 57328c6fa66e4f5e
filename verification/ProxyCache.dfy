/** The proxy's response cache: cached_page, the Cache-Control decision and handleRequest, with the
    clock and the upstream fetch as inputs. */
module ProxyCache {
  import opened Common
  import opened Directives

  datatype Response = Response(code: int, headers: map<string, string>, body: string, srcType: int)

  const OK := 200
  const GATEWAY_TIMEOUT := 504
  const ONE_MINUTE := 60

  datatype Page = Page(response: Response, timeStart: int, maxAge: int) {
    predicate IsExpired(now: int, max: int) { now - timeStart > max }

    predicate IsFresh(now: int, minFresh: int) { now > timeStart + minFresh }

    /** The staleness is held in an int. */
    predicate CouldStale(now: int, maxStale: int) { ToInt32(now - timeStart - maxAge) < maxStale }
  }

  /** One request's readings of the clock: for the staleness, the expiry and the freshness test. */
  datatype Clock = Clock(stale: int, expiry: int, freshness: int)

  type Cache = map<string, Page>

  /** A directive's number; 0 when the directive is absent. */
  function Number(dirs: Directives, name: string): Int32 {
    if name in dirs then dirs[name] else 0
  }

  predicate Asks(dirs: Directives, name: string) { Number(dirs, name) != 0 }

  /** The verdict on a cached page from max-age, max-stale and min-fresh; min-fresh, when present,
      overrules the other two. */
  predicate Usable(page: Page, dirs: Directives, now: Clock) {
    var age, stale, minFresh := Number(dirs, "max-age"), Number(dirs, "max-stale"), Number(dirs, "min-fresh");
    if minFresh != 0 then page.IsFresh(now.freshness, minFresh)
    else
      && (age != 0 ==> !page.IsExpired(now.expiry, age))
      && (stale != 0 ==> page.CouldStale(now.stale, stale))
      && (age != 0 && stale != 0 ==> age <= stale)
  }

  /** When cache_control returns false: one of the limits given alone refuses the page, or min-fresh
      does. It is not the same as the page being refused. */
  predicate Complains(page: Page, dirs: Directives, now: Clock) {
    var age, stale, minFresh := Number(dirs, "max-age"), Number(dirs, "max-stale"), Number(dirs, "min-fresh");
    || (age != 0 && stale == 0 && page.IsExpired(now.expiry, age))
    || (age == 0 && stale != 0 && !page.CouldStale(now.stale, stale))
    || (minFresh != 0 && !page.IsFresh(now.freshness, minFresh))
  }

  /** Whether a cached page is served to a request. */
  predicate Serves(page: Page, dirs: Directives, now: Clock) {
    !Asks(dirs, "no-cache") && !Asks(dirs, "no-store") && Usable(page, dirs, now)
  }

  /* ---------- the reference: what one request does ---------- */

  /** A request, the clock while it is handled, what the upstream server would answer it, and the
      time at which that answer would be stored. No answer: the upstream address cannot be formed,
      and the handler throws where it would be fetched. */
  datatype Event = Event(uri: string, dirs: Directives, now: Clock, fetched: Option<Response>, storedAt: int)

  datatype Answer = FromCache(response: Response) | NotCached | Fetched(response: Response) | Unresolved

  predicate Succeeds(e: Event) { e.fetched.Some? && e.fetched.value.code == OK }

  function PageOf(e: Event): Page
    requires e.fetched.Some?
  {
    Page(e.fetched.value, e.storedAt, ONE_MINUTE)
  }

  /** Stored if the URI is not cached yet. */
  predicate Storable(e: Event) {
    && Succeeds(e)
    && !Asks(e.dirs, "no-store")
    && (Asks(e.dirs, "no-cache") || !Asks(e.dirs, "only-if-cached"))
  }

  /** Removes the entry of its URI, if there is one. */
  predicate Erases(e: Event) {
    Asks(e.dirs, "no-store") && !Asks(e.dirs, "no-cache")
  }

  function UpstreamAnswer(e: Event): Answer {
    if e.fetched.Some? then Fetched(e.fetched.value) else Unresolved
  }

  function AnswerTo(cache: Cache, e: Event): Answer {
    if e.uri in cache && Serves(cache[e.uri], e.dirs, e.now) then FromCache(cache[e.uri].response)
    else if e.uri !in cache && !Asks(e.dirs, "no-cache") && Asks(e.dirs, "only-if-cached") then NotCached
    else UpstreamAnswer(e)
  }

  function Next(cache: Cache, e: Event): Cache {
    if e.uri !in cache then
      if Storable(e) then cache[e.uri := PageOf(e)] else cache
    else if Erases(e) then
      if Succeeds(e) then cache[e.uri := PageOf(e)] else cache - {e.uri}
    else cache
  }

  /** The answer sent when the client wants only a cached page and there is none. */
  function NoCacheResponse(): Response {
    Response(GATEWAY_TIMEOUT, map["Content-type" := "text/plain", "Connection" := "close"], "", 0)
  }

  /** None: the handler throws. */
  function ResponseOf(a: Answer): Option<Response> {
    match a
    case FromCache(r) => Some(r)
    case NotCached => Some(NoCacheResponse())
    case Fetched(r) => Some(r)
    case Unresolved => None
  }

  /** The upstream address is the URI itself if that is absolute; otherwise the served prefix is
      replaced in it, which throws if it is not there. */
  predicate Resolves(serveAddr: string, uri: string) {
    "http" <= uri || Contains(uri, serveAddr)
  }

  /** That is, an absolute URI or one the served prefix occurs in. */
  lemma ResolvesIff(serveAddr: string, uri: string)
    ensures Resolves(serveAddr, uri) <==>
              "http" <= uri || exists a: string, b: string :: uri == a + serveAddr + b
  {
    if i :| 0 <= i <= |uri| && OccursAt(uri, serveAddr, i) {
      assert uri == uri[..i] + serveAddr + uri[i + |serveAddr|..];
    }
    if a: string, b: string :| uri == a + serveAddr + b {
      assert OccursAt(uri, serveAddr, |a|);
    }
  }

  /* ---------- the handler ---------- */

  class ProxyHandler {
    const serveAddr: string
    var cachedPages: Cache

    constructor (serveAddr: string)
      ensures cachedPages == map[] && this.serveAddr == serveAddr
    {
      cachedPages, this.serveAddr := map[], serveAddr;
    }

    /** Sets the three flags, given in and out, and returns a verdict that handleRequest ignores. */
    method CacheControl(hdrs: Directives, uri: string, mustValidate: bool, now: Clock,
                        canUse0: bool, cacheOnly0: bool, shouldCache0: bool)
      returns (res: bool, canUse: bool, cacheOnly: bool, shouldCache: bool)
      modifies this
      ensures var hit := !mustValidate && uri in old(cachedPages);
              && canUse == (if hit then Usable(old(cachedPages)[uri], hdrs, now) && !Asks(hdrs, "no-store") else canUse0)
              && cacheOnly == (cacheOnly0 || (!hit && !mustValidate && Asks(hdrs, "only-if-cached")))
              && shouldCache == (shouldCache0 && (hit || !Asks(hdrs, "no-store")))
              && cachedPages == if hit && Asks(hdrs, "no-store") then old(cachedPages) - {uri} else old(cachedPages)
      ensures !res <==>
                && !mustValidate && uri in old(cachedPages) && !Asks(hdrs, "no-store")
                && Complains(old(cachedPages)[uri], hdrs, now)
    {
      res, canUse, cacheOnly, shouldCache := true, canUse0, cacheOnly0, shouldCache0;
      if !mustValidate && uri in cachedPages {
        canUse := true;
        var page := cachedPages[uri];
        var maxAge, maxStale := Number(hdrs, "max-age"), Number(hdrs, "max-stale");
        if maxAge != 0 && maxStale != 0 {
          var staleOk := if maxAge > maxStale then false else true;
          if !(staleOk && page.CouldStale(now.stale, maxStale)) {
            canUse := false;
          } else if page.IsExpired(now.expiry, maxAge) {
            canUse := false;
          }
        } else if maxAge != 0 {
          canUse := !page.IsExpired(now.expiry, maxAge);
          if !canUse {
            res := false;
          }
        } else if maxStale != 0 {
          canUse := page.CouldStale(now.stale, maxStale);
          if !canUse {
            res := false;
          }
        }
        var minFresh := Number(hdrs, "min-fresh");
        if minFresh != 0 {
          canUse := page.IsFresh(now.freshness, minFresh);
          if !canUse {
            res := false;
          }
        }
        if Number(hdrs, "no-store") != 0 {
          canUse := false;
          cachedPages := cachedPages - {uri};
          res := true;
        }
      } else {
        if !mustValidate && Number(hdrs, "only-if-cached") != 0 {
          cacheOnly := true;
        }
        if Number(hdrs, "no-store") != 0 {
          shouldCache := false;
        }
        res := true;
      }
    }

    /** Looks the page up with at(), so the key must be there. */
    method UseCache(uri: string) returns (res: Response)
      requires uri in cachedPages
      ensures res == cachedPages[uri].response
    {
      res := cachedPages[uri].response;
    }

    /** insert() does nothing when the key is present. */
    method StoreCache(uri: string, res: Response, now: int)
      modifies this
      ensures cachedPages == if uri in old(cachedPages) then old(cachedPages)
                             else old(cachedPages)[uri := Page(res, now, ONE_MINUTE)]
    {
      var page := Page(res, now, ONE_MINUTE);
      if uri !in cachedPages {
        cachedPages := cachedPages[uri := page];
      }
    }

    /** None: the Cache-Control value made the number parser throw, or the upstream address cannot be
        formed. `fetched` is what the upstream request, if it is made, comes back with. */
    method HandleRequest(uri: string, cacheControl: string, now: Clock, fetched: Response, storedAt: int)
      returns (res: Option<Response>)
      modifies this
      ensures match ParsePieces(Split(cacheControl), map[])
              case None => res == None && cachedPages == old(cachedPages)
              case Some(dirs) =>
                var e := Event(uri, dirs, now, if Resolves(serveAddr, uri) then Some(fetched) else None, storedAt);
                && res == ResponseOf(AnswerTo(old(cachedPages), e))
                && cachedPages == Next(old(cachedPages), e)
    {
      hide ParsePieces, Split, Contains;
      var parsed := ParseCacheHdrs(cacheControl);
      if parsed.None? {
        return None;
      }
      var hdrs := parsed.value;
      var mustValidate := Number(hdrs, "no-cache") != 0;
      var _, canUse, cacheOnly, shouldCache := CacheControl(hdrs, uri, mustValidate, now, false, false, true);
      if canUse {
        var page := UseCache(uri);
        return Some(page);
      } else if cacheOnly {
        return Some(NoCacheResponse());
      }
      var resolved := FindWord(uri, serveAddr);
      if !("http" <= uri) && !resolved {
        return None;
      }
      if shouldCache && fetched.code == OK {
        StoreCache(uri, fetched, storedAt);
      }
      res := Some(fetched);
    }
  }

  /* ---------- histories ---------- */

  /** The cache after a history of requests, from the empty cache. */
  function After(h: seq<Event>): Cache {
    if h == [] then map[] else Next(After(h[..|h| - 1]), h[|h| - 1])
  }

  /** Which event the entry of a URI comes from, looking at the events for that URI alone: absent,
      it is taken from the next storable one; present, it changes only at an erasing one, whose own
      answer replaces it if that is a 200. */
  function SourceOf(h: seq<Event>, uri: string): Option<nat> {
    if h == [] then None
    else
      var before := SourceOf(h[..|h| - 1], uri);
      var e := h[|h| - 1];
      if e.uri != uri then before
      else if before.None? then if Storable(e) then Some(|h| - 1) else None
      else if !Erases(e) then before
      else if Succeeds(e) then Some(|h| - 1) else None
  }

  lemma {:induction false} CacheIsSources(h: seq<Event>, uri: string)
    ensures uri in After(h) <==> SourceOf(h, uri).Some?
    ensures var s := SourceOf(h, uri);
            s.Some? ==> s.value < |h| && Succeeds(h[s.value]) && After(h)[uri] == PageOf(h[s.value])
  {
    if h != [] {
      CacheIsSources(h[..|h| - 1], uri);
    }
  }

  predicate ErasedAt(h: seq<Event>, uri: string, i: nat)
    requires i < |h|
  {
    h[i].uri == uri && Erases(h[i])
  }

  predicate StorableAt(h: seq<Event>, uri: string, i: nat)
    requires i < |h|
  {
    h[i].uri == uri && Storable(h[i])
  }

  /** Event i is a 200 answer for the URI, no later request erases the URI, and i is either the
      first storable request for the URI since `from`, the start or the last erasing request, or an
      erasing request itself. */
  predicate FirstSinceErase(h: seq<Event>, uri: string, i: nat, from: nat)
    requires from <= i < |h|
  {
    && h[i].uri == uri && Succeeds(h[i])
    && (forall j :: i < j < |h| ==> !ErasedAt(h, uri, j))
    && (ErasedAt(h, uri, i) ||
        (&& StorableAt(h, uri, i)
         && (from == 0 || ErasedAt(h, uri, from - 1))
         && forall j :: from <= j < i ==> !StorableAt(h, uri, j) && !ErasedAt(h, uri, j)))
  }

  /** Where a search for the first storable request starts: after the last erasing one. */
  function LastErase(h: seq<Event>, uri: string): (n: nat)
    ensures n <= |h|
    ensures n > 0 ==> ErasedAt(h, uri, n - 1)
    ensures forall j :: n <= j < |h| ==> !ErasedAt(h, uri, j)
  {
    if h == [] then 0
    else if ErasedAt(h, uri, |h| - 1) then |h|
    else
      var front := h[..|h| - 1];
      var n := LastErase(front, uri);
      assert forall j :: n <= j < |front| ==> ErasedAt(front, uri, j) == ErasedAt(h, uri, j);
      assert n > 0 ==> ErasedAt(front, uri, n - 1) == ErasedAt(h, uri, n - 1);
      n
  }

  lemma {:induction false} AbsentMeansNothingStorable(h: seq<Event>, uri: string)
    requires SourceOf(h, uri).None?
    ensures forall j :: LastErase(h, uri) <= j < |h| ==> !StorableAt(h, uri, j)
  {
    if h != [] && !ErasedAt(h, uri, |h| - 1) {
      var front := h[..|h| - 1];
      assert SourceOf(front, uri).None?;
      AbsentMeansNothingStorable(front, uri);
      forall j | LastErase(h, uri) <= j < |h| ensures !StorableAt(h, uri, j) {
        if j < |h| - 1 {
          assert StorableAt(front, uri, j) == StorableAt(h, uri, j);
        }
      }
    }
  }

  lemma FrontAgrees(h: seq<Event>, uri: string)
    requires h != []
    ensures var front := h[..|h| - 1];
            forall j :: 0 <= j < |front| ==>
              && ErasedAt(front, uri, j) == ErasedAt(h, uri, j)
              && StorableAt(front, uri, j) == StorableAt(h, uri, j)
  {
  }

  lemma {:induction false} SourceIsFirst(h: seq<Event>, uri: string) returns (from: nat)
    requires SourceOf(h, uri).Some?
    ensures var i := SourceOf(h, uri).value;
            from <= i < |h| && FirstSinceErase(h, uri, i, from)
  {
    var front, e := h[..|h| - 1], h[|h| - 1];
    var i := SourceOf(h, uri).value;
    if SourceOf(front, uri) == Some(i) && !(e.uri == uri && Erases(e)) {
      from := SourceIsFirst(front, uri);
      CacheIsSources(front, uri);
      FrontAgrees(h, uri);
    } else {
      assert i == |h| - 1;
      from := if Erases(e) then i else LastErase(front, uri);
      if !Erases(e) {
        AbsentMeansNothingStorable(front, uri);
        FrontAgrees(h, uri);
      }
    }
  }

  /** In every run from the empty cache, an entry holds a 200 answer, the first one to a storable
      request for its URI since the URI was last erased (or the answer to the erasing request). */
  lemma CacheHistory(h: seq<Event>, uri: string)
    requires uri in After(h)
    ensures exists i: nat, from: nat ::
              from <= i < |h| && FirstSinceErase(h, uri, i, from) && After(h)[uri] == PageOf(h[i])
    ensures After(h)[uri].response.code == OK
  {
    CacheIsSources(h, uri);
    var from := SourceIsFirst(h, uri);
    assert FirstSinceErase(h, uri, SourceOf(h, uri).value, from);
  }

  /** What was storable stays cached as long as nothing erases it. */
  lemma {:induction false} StoredStays(h: seq<Event>, uri: string, i: nat)
    requires i < |h| && StorableAt(h, uri, i)
    requires forall j :: i < j < |h| ==> !ErasedAt(h, uri, j)
    ensures uri in After(h)
    decreases |h|
  {
    var front := h[..|h| - 1];
    if i < |h| - 1 {
      assert StorableAt(front, uri, i);
      assert forall j :: i < j < |front| ==> ErasedAt(front, uri, j) == ErasedAt(h, uri, j);
      StoredStays(front, uri, i);
      assert !ErasedAt(h, uri, |h| - 1);
    }
  }

  lemma ServedRespectsMaxAge(page: Page, dirs: Directives, now: Clock)
    requires Serves(page, dirs, now)
    ensures Asks(dirs, "max-age") && !Asks(dirs, "min-fresh") ==>
              now.expiry - page.timeStart <= Number(dirs, "max-age")
  {
  }

  /** A page served from the cache was fetched for the same URI earlier in the run with code 200;
      and when the request gives a max-age and no min-fresh, it is no older than that. */
  lemma ServedWasFetched(h: seq<Event>, e: Event)
    requires AnswerTo(After(h), e).FromCache?
    ensures exists i: nat :: i < |h| && h[i].uri == e.uri && Succeeds(h[i])
              && AnswerTo(After(h), e).response == h[i].fetched.value
              && (Asks(e.dirs, "max-age") && !Asks(e.dirs, "min-fresh") ==>
                    e.now.expiry - h[i].storedAt <= Number(e.dirs, "max-age"))
  {
    hide SourceOf, After, Asks, Number, Serves;
    CacheIsSources(h, e.uri);
    var i := SourceOf(h, e.uri).value;
    var from := SourceIsFirst(h, e.uri);
    assert h[i].uri == e.uri;
    ServedRespectsMaxAge(After(h)[e.uri], e.dirs, e.now);
  }

  /** The directive is there, with a number other than 0. */
  predicate Given(dirs: Directives, name: string) { name in dirs && dirs[name] != 0 }

  /** The limits a request gives, on the age of a page at the three readings of the clock. */
  predicate AgeAllowed(dirs: Directives, age: Clock) {
    if Given(dirs, "min-fresh") then age.freshness > dirs["min-fresh"]
    else
      && (Given(dirs, "max-age") ==> age.expiry <= dirs["max-age"])
      && (Given(dirs, "max-stale") ==> ToInt32(age.stale - 60) < dirs["max-stale"])
      && (Given(dirs, "max-age") && Given(dirs, "max-stale") ==> dirs["max-age"] <= dirs["max-stale"])
  }

  function AgeAt(now: Clock, storedAt: int): Clock {
    Clock(now.stale - storedAt, now.expiry - storedAt, now.freshness - storedAt)
  }

  lemma UsableIffAgeAllowed(page: Page, dirs: Directives, now: Clock)
    requires page.maxAge == ONE_MINUTE
    ensures Usable(page, dirs, now) <==> AgeAllowed(dirs, AgeAt(now, page.timeStart))
  {
    hide ToInt32;
  }

  /** In every run a request is answered from the cache if and only if its URI has a source, it asks
      neither for no-cache nor for no-store, and the source's age is allowed. */
  lemma ServedIffAgeAllowed(h: seq<Event>, e: Event)
    ensures AnswerTo(After(h), e).FromCache? <==>
              && !Asks(e.dirs, "no-cache") && !Asks(e.dirs, "no-store")
              && SourceOf(h, e.uri).Some? && SourceOf(h, e.uri).value < |h|
              && AgeAllowed(e.dirs, AgeAt(e.now, h[SourceOf(h, e.uri).value].storedAt))
  {
    hide SourceOf, After, Usable, AgeAllowed, Asks;
    CacheIsSources(h, e.uri);
    if SourceOf(h, e.uri).Some? {
      UsableIffAgeAllowed(After(h)[e.uri], e.dirs, e.now);
    }
  }

  /** What no-store does in every run: on a URI without a source, or together with no-cache, the
      cache stays as it is; otherwise the request is answered from upstream and becomes itself the
      source of its URI if that answer is a 200, and else leaves the URI without one. */
  lemma NoStoreOutcome(h: seq<Event>, e: Event)
    requires Asks(e.dirs, "no-store")
    ensures SourceOf(h, e.uri).None? || Asks(e.dirs, "no-cache") ==> After(h + [e]) == After(h)
    ensures SourceOf(h, e.uri).Some? && !Asks(e.dirs, "no-cache") ==>
              && AnswerTo(After(h), e) == UpstreamAnswer(e)
              && SourceOf(h + [e], e.uri) == (if Succeeds(e) then Some(|h|) else None)
              && (Succeeds(e) ==> e.uri in After(h + [e]) && After(h + [e])[e.uri] == PageOf(e))
              && (!Succeeds(e) ==> e.uri !in After(h + [e]))
  {
    CacheIsSources(h, e.uri);
    assert (h + [e])[..|h|] == h;
    CacheIsSources(h + [e], e.uri);
  }

  /* ---------- every answer and every change of the cache, told over runs ---------- */

  /** In every run the answer to a request is: the source's page, if the URI has one, neither no-cache
      nor no-store is given and its age is within the limits; code 504 with two headers and no body,
      whatever the upstream server would say, if the URI has no source, only-if-cached is given and
      no-cache is not; and what the upstream server says in all other cases. */
  lemma AnswerIs(h: seq<Event>, e: Event)
    ensures var source, r := SourceOf(h, e.uri), ResponseOf(AnswerTo(After(h), e));
            if source.Some? && !Given(e.dirs, "no-cache") && !Given(e.dirs, "no-store")
               && source.value < |h| && AgeAllowed(e.dirs, AgeAt(e.now, h[source.value].storedAt))
            then r == h[source.value].fetched
            else if source.None? && Given(e.dirs, "only-if-cached") && !Given(e.dirs, "no-cache")
            then r == Some(Response(504, map["Content-type" := "text/plain", "Connection" := "close"], "", 0))
            else r == e.fetched
  {
    hide SourceOf, After, Usable, AgeAllowed, AnswerTo, ResponseOf, Given;
    CacheIsSources(h, e.uri);
    AnswerByEntry(After(h), e);
    var source := SourceOf(h, e.uri);
    if source.Some? {
      UsableIffAgeAllowed(After(h)[e.uri], e.dirs, e.now);
    }
  }

  lemma AnswerByEntry(cache: Cache, e: Event)
    ensures ResponseOf(AnswerTo(cache, e)) ==
            if e.uri in cache && !Given(e.dirs, "no-cache") && !Given(e.dirs, "no-store")
               && Usable(cache[e.uri], e.dirs, e.now)
            then Some(cache[e.uri].response)
            else if e.uri !in cache && Given(e.dirs, "only-if-cached") && !Given(e.dirs, "no-cache")
            then Some(Response(504, map["Content-type" := "text/plain", "Connection" := "close"], "", 0))
            else e.fetched
  {
    hide Usable;
  }

  /** The upstream answer is there and its code is 200. */
  predicate Got200(e: Event) { e.fetched.Some? && e.fetched.value.code == 200 }

  /** In every run one more request changes the entry of its own URI only. It removes a present one if
      no-store is given and no-cache is not, and it puts its own answer in, if that is a 200, after
      such a removal, or where there is no entry and neither no-store is given nor only-if-cached
      without no-cache. */
  lemma CacheStep(h: seq<Event>, e: Event)
    ensures var before, after := After(h), After(h + [e]);
            var noStore, noCache := Given(e.dirs, "no-store"), Given(e.dirs, "no-cache");
            var erased := e.uri in before && noStore && !noCache;
            var allowed := e.uri !in before && !noStore && (noCache || !Given(e.dirs, "only-if-cached"));
            && (forall u :: u != e.uri ==> (u in after <==> u in before) && (u in before ==> after[u] == before[u]))
            && (Got200(e) && (erased || allowed) ==>
                  e.uri in after && after[e.uri] == Page(e.fetched.value, e.storedAt, 60))
            && (erased && !Got200(e) ==> e.uri !in after)
            && (!erased && !(Got200(e) && allowed) ==> after == before)
  {
    assert (h + [e])[..|h|] == h;
  }

  /** A request for an uncached URI that wants a cached page only is answered with 504 and leaves the
      cache alone. */
  lemma OnlyIfCachedMiss(h: seq<Event>, e: Event)
    requires SourceOf(h, e.uri).None? && Given(e.dirs, "only-if-cached") && !Given(e.dirs, "no-cache")
    ensures ResponseOf(AnswerTo(After(h), e))
         == Some(Response(504, map["Content-type" := "text/plain", "Connection" := "close"], "", 0))
    ensures After(h + [e]) == After(h)
  {
    hide SourceOf, After, AnswerTo, ResponseOf;
    AnswerIs(h, e);
    CacheIsSources(h, e.uri);
    CacheStep(h, e);
  }

  /** Where cache_control's verdict, which the handler ignores, says the same as the flag: everywhere
      but with min-fresh, or max-age and max-stale together. */
  lemma ComplainsIff(page: Page, dirs: Directives, now: Clock)
    requires !Given(dirs, "min-fresh") && !(Given(dirs, "max-age") && Given(dirs, "max-stale"))
    ensures Complains(page, dirs, now) <==> !Usable(page, dirs, now)
  {
  }

  /* ---------- ageing ---------- */

  /** Readings of a clock that does not run backwards. */
  predicate InOrder(now: Clock) { now.stale <= now.expiry <= now.freshness }

  predicate NotAfter(now: Clock, later: Clock) {
    now.stale <= later.stale && now.expiry <= later.expiry && now.freshness <= later.freshness
  }

  /** The page is refused to a request and then served to a later one like it. */
  predicate Returns(page: Page, dirs: Directives, now: Clock, later: Clock) {
    && page.timeStart <= now.stale && InOrder(now) && InOrder(later) && NotAfter(now, later)
    && !Serves(page, dirs, now) && Serves(page, dirs, later)
  }

  /** Once refused, a page is refused at every later time. */
  ghost predicate NeverReturns(page: Page, dirs: Directives) {
    forall now: Clock, later: Clock :: !Returns(page, dirs, now, later)
  }

  /** The same, as long as the staleness fits an int. */
  ghost predicate NeverReturnsInTime(page: Page, dirs: Directives) {
    forall now: Clock, later: Clock ::
      later.stale - page.timeStart - page.maxAge < TWO_TO_THE_31 ==> !Returns(page, dirs, now, later)
  }

  /** A positive min-fresh compares age the wrong way round: a page comes of age. */
  lemma FreshnessReturns(page: Page, dirs: Directives) returns (now: Clock, later: Clock)
    requires !Asks(dirs, "no-cache") && !Asks(dirs, "no-store") && Number(dirs, "min-fresh") > 0
    ensures Returns(page, dirs, now, later) && later.stale == page.timeStart
  {
    var t := page.timeStart;
    now := Clock(t, t, t);
    later := now.(freshness := t + Number(dirs, "min-fresh") + 1);
  }

  /** A staleness past the largest int turns negative. */
  lemma StalenessReturns(page: Page, dirs: Directives) returns (now: Clock, later: Clock)
    requires page.maxAge == ONE_MINUTE
    requires !Asks(dirs, "no-cache") && !Asks(dirs, "no-store")
    requires !Asks(dirs, "min-fresh") && !Asks(dirs, "max-age") && Asks(dirs, "max-stale")
    requires Number(dirs, "max-stale") > -TWO_TO_THE_31
    ensures Returns(page, dirs, now, later)
  {
    var t := page.timeStart + ONE_MINUTE + TWO_TO_THE_31;
    now, later := Clock(t - 1, t - 1, t - 1), Clock(t, t, t);
    assert ToInt32(t - 1 - page.timeStart - page.maxAge) == TWO_TO_THE_31 - 1;
    assert ToInt32(t - page.timeStart - page.maxAge) == -TWO_TO_THE_31;
  }

  lemma FitsInt(n: int)
    requires -TWO_TO_THE_31 <= n < TWO_TO_THE_31
    ensures ToInt32(n) == n
  {
  }

  /** Without a positive min-fresh a page that returns was refused for a staleness that has left
      the range of int since. */
  lemma ReturnNeedsWrap(page: Page, dirs: Directives, now: Clock, later: Clock)
    requires page.maxAge == ONE_MINUTE && Returns(page, dirs, now, later)
    ensures Number(dirs, "min-fresh") >= 0
    ensures !Asks(dirs, "min-fresh") ==>
              && !Asks(dirs, "max-age") && Asks(dirs, "max-stale") && Number(dirs, "max-stale") > -TWO_TO_THE_31
              && later.stale - page.timeStart - page.maxAge >= TWO_TO_THE_31
  {
    hide ToInt32, Number;
    if !Asks(dirs, "min-fresh") {
      var x, y := now.stale - page.timeStart - page.maxAge, later.stale - page.timeStart - page.maxAge;
      if y < TWO_TO_THE_31 {
        FitsInt(x);
        FitsInt(y);
      }
    }
  }

  /** A page once refused stays refused if and only if the request never uses the cache, or has a
      negative min-fresh, or has none and its max-stale is absent, comes with a max-age or is the
      smallest int: only then neither a page coming of age nor a staleness that wraps around can
      bring it back. While the staleness fits an int, a positive min-fresh is the only cause. */
  lemma NeverReturnsIff(page: Page, dirs: Directives)
    requires page.maxAge == ONE_MINUTE
    ensures NeverReturns(page, dirs) <==>
              || Asks(dirs, "no-cache") || Asks(dirs, "no-store") || Number(dirs, "min-fresh") < 0
              || (!Asks(dirs, "min-fresh") &&
                  (!Asks(dirs, "max-stale") || Asks(dirs, "max-age") || Number(dirs, "max-stale") == -TWO_TO_THE_31))
    ensures NeverReturnsInTime(page, dirs) <==>
              Asks(dirs, "no-cache") || Asks(dirs, "no-store") || Number(dirs, "min-fresh") <= 0
  {
    hide Returns, Number;
    forall now: Clock, later: Clock | Returns(page, dirs, now, later)
      ensures !Asks(dirs, "no-cache") && !Asks(dirs, "no-store") && Number(dirs, "min-fresh") >= 0
      ensures !Asks(dirs, "min-fresh") ==>
                && !Asks(dirs, "max-age") && Asks(dirs, "max-stale") && Number(dirs, "max-stale") > -TWO_TO_THE_31
                && later.stale - page.timeStart - page.maxAge >= TWO_TO_THE_31
    {
      ReturnNeedsWrap(page, dirs, now, later);
      ReturnUsesCache(page, dirs, now, later);
    }
    if !Asks(dirs, "no-cache") && !Asks(dirs, "no-store") {
      if Number(dirs, "min-fresh") > 0 {
        var now, later := FreshnessReturns(page, dirs);
      } else if !Asks(dirs, "min-fresh") && !Asks(dirs, "max-age") && Asks(dirs, "max-stale")
                && Number(dirs, "max-stale") > -TWO_TO_THE_31 {
        var now, later := StalenessReturns(page, dirs);
      }
    }
  }

  lemma ReturnUsesCache(page: Page, dirs: Directives, now: Clock, later: Clock)
    requires Returns(page, dirs, now, later)
    ensures !Asks(dirs, "no-cache") && !Asks(dirs, "no-store")
  {
  }
}
