/** Choosing the request handler: session::good_request's search and handler_task's lookup, whose
    operator[] can insert a null handler for "/". */
module Routing {
  import opened Common
  import opened Slashes

  /** A registered handler; None is a null pointer. */
  type Handler = Option<nat>
  type Handlers = map<string, Handler>

  function Quote(s: string): string {
    "\"" + s + "\""
  }

  const ROOT := "\"/\""
  const HTTP := "\"/http\""

  predicate IsAbsolute(uri: string) { "http" <= uri }

  /** The longest registered prefix among uri cut at a slash before position n. */
  function LongestCut(m: Handlers, uri: string, n: nat): (r: Option<nat>)
    requires n <= |uri|
    ensures r.Some? ==> r.value < n && IsCut(uri, r.value) && Quote(uri[..r.value]) in m
    ensures forall i: nat :: i < n && IsCut(uri, i) && Quote(uri[..i]) in m ==> r.Some? && i <= r.value
  {
    if n == 0 then None
    else if IsCut(uri, n - 1) && Quote(uri[..n - 1]) in m then Some(n - 1)
    else LongestCut(m, uri, n - 1)
  }

  /** The key under which a request is handled: the whole URI, or "/http" for an absolute one, or
      else its longest registered prefix. None: nothing matches. */
  function KeyFor(m: Handlers, uri: string): (k: Option<string>)
    ensures k.Some? ==> k.value in m
  {
    var whole := if IsAbsolute(uri) then HTTP else Quote(uri);
    if whole in m then Some(whole)
    else match LongestCut(m, uri, |uri|)
         case None => None
         case Some(i) => Some(Quote(uri[..i]))
  }

  /** Where the search may look: the whole URI and its cuts at a slash. */
  predicate IsStop(uri: string, i: nat) { i == |uri| || IsCut(uri, i) }

  /** For a URI that is not absolute, the key is that of the longest registered prefix among the
      stops, and there is none only if no stop is registered. */
  lemma KeyIsLongestPrefix(m: Handlers, uri: string, i: nat)
    requires !IsAbsolute(uri) && IsStop(uri, i) && Quote(uri[..i]) in m
    ensures exists j: nat :: i <= j && IsStop(uri, j) && KeyFor(m, uri) == Some(Quote(uri[..j]))
  {
    assert uri[..|uri|] == uri;
    if Quote(uri) in m {
      assert IsStop(uri, |uri|);
    } else {
      var j := LongestCut(m, uri, |uri|).value;
      assert IsStop(uri, j);
    }
  }

  lemma KeyIsAPrefix(m: Handlers, uri: string)
    requires !IsAbsolute(uri) && KeyFor(m, uri).Some?
    ensures exists j: nat :: IsStop(uri, j) && Quote(uri[..j]) in m && KeyFor(m, uri) == Some(Quote(uri[..j]))
  {
    assert uri[..|uri|] == uri;
    if Quote(uri) in m {
      assert IsStop(uri, |uri|);
    } else {
      assert IsStop(uri, LongestCut(m, uri, |uri|).value);
    }
  }

  datatype Dispatch = Handled(handler: nat) | ErrorPage | NullDereference

  function DispatchOf(m: Handlers, uri: string): Dispatch {
    match KeyFor(m, uri)
    case Some(key) => if m[key].Some? then Handled(m[key].value) else NullDereference
    case None => if ROOT in m && m[ROOT].Some? then Handled(m[ROOT].value) else ErrorPage
  }

  function HandlersAfter(m: Handlers, uri: string): Handlers {
    if KeyFor(m, uri).None? && ROOT !in m then m[ROOT := None] else m
  }

  /* ---------- which handler answers, told by the registered keys alone ---------- */

  /** The prefixes a lookup tries: the cuts at a slash and, unless the URI is absolute, the whole. */
  predicate Tried(uri: string, i: nat) {
    (i < |uri| && uri[i] == '/') || (i == |uri| && !("http" <= uri))
  }

  ghost predicate LongestTried(m: Handlers, uri: string, i: nat) {
    && i <= |uri| && Tried(uri, i) && "\"" + uri[..i] + "\"" in m
    && forall j: nat :: i < j <= |uri| && Tried(uri, j) ==> "\"" + uri[..j] + "\"" !in m
  }

  ghost predicate NoneTried(m: Handlers, uri: string) {
    forall j: nat :: j <= |uri| && Tried(uri, j) ==> "\"" + uri[..j] + "\"" !in m
  }

  predicate Calls(h: Handler, d: Dispatch) {
    match h
    case Some(n) => d == Handled(n)
    case None => d == NullDereference
  }

  /** An absolute URI goes to the handler of "/http" if there is one; any other goes to the handler of
      the longest prefix that has one; failing that it goes to the handler of "/", or gets the error
      page, and a missing entry for "/" is added as a null one. */
  ghost predicate Routed(m: Handlers, uri: string, d: Dispatch, after: Handlers) {
    if "http" <= uri && "\"/http\"" in m then Calls(m["\"/http\""], d) && after == m
    else
      && (forall i: nat :: LongestTried(m, uri, i) ==> Calls(m["\"" + uri[..i] + "\""], d) && after == m)
      && (NoneTried(m, uri) ==>
            && d == (if "\"/\"" in m && m["\"/\""].Some? then Handled(m["\"/\""].value) else ErrorPage)
            && after == if "\"/\"" in m then m else m["\"/\"" := None])
  }

  /** One of the cases applies. */
  lemma LongestOrNone(m: Handlers, uri: string, n: nat)
    requires n <= |uri| && forall j: nat :: n < j <= |uri| && Tried(uri, j) ==> "\"" + uri[..j] + "\"" !in m
    ensures NoneTried(m, uri) || exists i: nat :: LongestTried(m, uri, i)
  {
    if Tried(uri, n) && "\"" + uri[..n] + "\"" in m {
      assert LongestTried(m, uri, n);
    } else if n > 0 {
      LongestOrNone(m, uri, n - 1);
    }
  }

  lemma DispatchIsRight(m: Handlers, uri: string)
    ensures Routed(m, uri, DispatchOf(m, uri), HandlersAfter(m, uri))
  {
    hide LongestCut;
    assert uri[..|uri|] == uri;
    forall i: nat | LongestTried(m, uri, i) && !("http" <= uri && "\"/http\"" in m)
      ensures KeyFor(m, uri) == Some("\"" + uri[..i] + "\"")
    {
      LongestIsKey(m, uri, i);
    }
    if NoneTried(m, uri) && !("http" <= uri && "\"/http\"" in m) {
      NoneHasNoKey(m, uri);
    }
  }

  lemma LongestIsKey(m: Handlers, uri: string, i: nat)
    requires LongestTried(m, uri, i) && !("http" <= uri && "\"/http\"" in m)
    ensures KeyFor(m, uri) == Some("\"" + uri[..i] + "\"")
  {
    assert uri[..|uri|] == uri;
    if i < |uri| {
      assert IsCut(uri, i) && Quote(uri[..i]) in m;
      if !("http" <= uri) {
        assert Tried(uri, |uri|);
      }
      var k := LongestCut(m, uri, |uri|).value;
      assert Tried(uri, k) && Quote(uri[..k]) in m;
    }
  }

  lemma NoneHasNoKey(m: Handlers, uri: string)
    requires NoneTried(m, uri) && !("http" <= uri && "\"/http\"" in m)
    ensures KeyFor(m, uri).None?
  {
    assert uri[..|uri|] == uri;
    if !("http" <= uri) {
      assert Tried(uri, |uri|);
    }
    assert forall i: nat :: IsCut(uri, i) ==> Tried(uri, i);
  }

  class Server {
    var handlers: Handlers

    constructor (registered: Handlers)
      ensures handlers == registered
    {
      handlers := registered;
    }

    method FindKey(uri: string) returns (found: bool, key: string)
      ensures found <==> KeyFor(handlers, uri).Some?
      ensures found ==> KeyFor(handlers, uri) == Some(key)
    {
      var prefix := uri;
      key := Quote(prefix);
      if IsAbsolute(prefix) {
        key := HTTP;
      }
      found := true;
      ghost var at: nat := |uri|;
      while key !in handlers
        invariant at <= |uri| && prefix == uri[..at] && found
        invariant at == |uri| ==> key == if IsAbsolute(uri) then HTTP else Quote(uri)
        invariant at < |uri| ==> IsCut(uri, at) && key == Quote(prefix)
                                 && (if IsAbsolute(uri) then HTTP else Quote(uri)) !in handlers
        invariant forall i: nat :: at < i && IsCut(uri, i) ==> Quote(uri[..i]) !in handlers
        decreases |prefix|
      {
        LastSlashOfPrefix(uri, at, at);
        var pos := LastSlash(prefix, |prefix|);
        if pos == None {
          found := false;
          break;
        }
        prefix := prefix[..pos.value];
        at := pos.value;
        key := Quote(prefix);
      }
    }

    method HandlerTask(found: bool, key: string) returns (d: Dispatch)
      requires found ==> key in handlers
      modifies this
      ensures found ==> handlers == old(handlers)
      ensures !found ==> handlers == if ROOT in old(handlers) then old(handlers) else old(handlers)[ROOT := None]
      ensures d == if found then (if handlers[key].Some? then Handled(handlers[key].value) else NullDereference)
                   else if handlers[ROOT].Some? then Handled(handlers[ROOT].value) else ErrorPage
    {
      if !found {
        if ROOT !in handlers {
          handlers := handlers[ROOT := None];
        }
        if handlers[ROOT].Some? {
          d := Handled(handlers[ROOT].value);
        } else {
          d := ErrorPage;
        }
      } else {
        d := if handlers[key].Some? then Handled(handlers[key].value) else NullDereference;
      }
    }

    /** The part of good_request that takes a parsed URI to its handler. */
    method RouteRequest(uri: string) returns (d: Dispatch)
      modifies this
      ensures d == DispatchOf(old(handlers), uri)
      ensures handlers == HandlersAfter(old(handlers), uri)
      ensures Routed(old(handlers), uri, d, handlers)
    {
      DispatchIsRight(handlers, uri);
      var found, key := FindKey(uri);
      d := HandlerTask(found, key);
    }
  }

  /* ---------- runs ---------- */

  function HandlersAfterAll(m: Handlers, uris: seq<string>): Handlers
    decreases |uris|
  {
    if uris == [] then m else HandlersAfterAll(HandlersAfter(m, uris[0]), uris[1..])
  }

  predicate Crashes(m: Handlers, uris: seq<string>)
    decreases |uris|
  {
    uris != [] && (DispatchOf(m, uris[0]).NullDereference? || Crashes(HandlersAfter(m, uris[0]), uris[1..]))
  }

  ghost predicate NoNulls(m: Handlers) {
    forall k :: k in m ==> m[k].Some?
  }

  ghost predicate NeverCrashes(m: Handlers) {
    forall uris: seq<string> :: !Crashes(m, uris)
  }

  lemma {:induction false} RootKeepsRunsSafe(m: Handlers, uris: seq<string>)
    requires NoNulls(m) && ROOT in m
    ensures HandlersAfterAll(m, uris) == m && !Crashes(m, uris)
    ensures forall i :: 0 <= i < |uris| ==> DispatchOf(m, uris[i]).Handled?
    decreases |uris|
  {
    if uris != [] {
      RootKeepsRunsSafe(m, uris[1..]);
    }
  }

  /** A URI no key matches: a run of letters longer than every key. */
  function Unmatched(n: nat): string {
    seq(n, i => 'a')
  }

  lemma {:induction false} LongerThanKeys(keys: set<string>) returns (n: nat)
    ensures n > 0 && forall k :: k in keys ==> |k| <= n
    decreases keys
  {
    if keys == {} {
      n := 1;
    } else {
      var k :| k in keys;
      var rest := LongerThanKeys(keys - {k});
      n := if |k| > rest then |k| else rest;
    }
  }

  /** A URI without a key puts a null handler under "/", which a request for "/" then calls. */
  lemma StrayThenRoot(m: Handlers, stray: string)
    requires ROOT !in m && KeyFor(m, stray).None?
    ensures Crashes(m, [stray, "/"])
  {
    var m' := HandlersAfter(m, stray);
    assert Quote("/") == ROOT;
    assert KeyFor(m', "/") == Some(ROOT);
    assert [stray, "/"][1..] == ["/"] && Crashes(m', ["/"]);
  }

  lemma NoRootCrashes(m: Handlers) returns (uris: seq<string>)
    requires ROOT !in m
    ensures Crashes(m, uris)
  {
    var n := LongerThanKeys(m.Keys);
    var stray := Unmatched(n);
    uris := [stray, "/"];
    assert !IsAbsolute(stray) by { assert stray[0] == 'a'; }
    assert Quote(stray) !in m;
    assert LongestCut(m, stray, |stray|).None?;
    StrayThenRoot(m, stray);
  }

  /** If every registered handler is real, no run of requests calls through a null handler if and
      only if a handler is registered for "/". Without one, a request that matches nothing inserts
      a null handler under "/", and a later request for "/" calls it. */
  lemma RunsSafeIffRoot(m: Handlers)
    requires NoNulls(m)
    ensures NeverCrashes(m) <==> ROOT in m
  {
    hide Crashes;
    if ROOT in m {
      forall uris: seq<string> ensures !Crashes(m, uris) {
        RootKeepsRunsSafe(m, uris);
      }
    } else {
      var uris := NoRootCrashes(m);
      assert Crashes(m, uris);
    }
  }

  /* ---------- runs of URIs that checked request lines lead to ---------- */

  /** A new parser takes a checked request line to a URI that begins with a slash, `http://` or
      `https://`, or to the empty one. Other URIs, such as the run of letters above, arrive only
      behind leftovers of an earlier text in the shared parser. */
  predicate Admissible(uri: string) { uri == "" || StartsTarget(uri) }

  /** What a target that passes the check begins with. */
  predicate StartsTarget(target: string) {
    "/" <= target || "http://" <= target || "https://" <= target
  }

  predicate AllAdmissible(uris: seq<string>) {
    forall i :: 0 <= i < |uris| ==> Admissible(uris[i])
  }

  /** A key for every absolute URI of the scheme, other than "/http". */
  predicate Keyed(m: Handlers, scheme: string) {
    Quote(scheme) in m || Quote(scheme + "/") in m
  }

  /** Every admissible URI has a handler: that of "/", or that of the empty prefix for paths and one
      of "/http" or of the two schemes for absolute URIs. */
  predicate Covered(m: Handlers) {
    ROOT in m || (Quote("") in m && (HTTP in m || (Keyed(m, "http:") && Keyed(m, "https:"))))
  }

  lemma SchemeIsCut(uri: string, scheme: string)
    requires scheme + "//" <= uri
    ensures IsCut(uri, |scheme|) && uri[..|scheme|] == scheme
    ensures IsCut(uri, |scheme| + 1) && uri[..|scheme| + 1] == scheme + "/"
  {
    var n := |scheme|;
    assert uri[..n + 2] == scheme + "//";
    assert uri[n] == (scheme + "//")[n] && uri[n + 1] == (scheme + "//")[n + 1];
    assert uri[..n] == uri[..n + 2][..n] && uri[..n + 1] == uri[..n + 2][..n + 1];
  }

  lemma CoveredIsKept(m: Handlers, uri: string)
    requires NoNulls(m) && Covered(m) && Admissible(uri)
    ensures HandlersAfter(m, uri) == m && DispatchOf(m, uri).Handled?
  {
    if ROOT !in m {
      if "/" <= uri {
        assert uri[..0] == "" && IsCut(uri, 0);
      } else if uri != "" {
        var scheme := if "http://" <= uri then "http:" else "https:";
        assert scheme + "//" == if "http://" <= uri then "http://" else "https://";
        SchemeIsCut(uri, scheme);
      }
    }
  }

  lemma {:induction false} CoveredRunsSafe(m: Handlers, uris: seq<string>)
    requires NoNulls(m) && Covered(m) && AllAdmissible(uris)
    ensures !Crashes(m, uris)
    decreases |uris|
  {
    hide Covered, NoNulls, Admissible;
    if uris != [] {
      CoveredIsKept(m, uris[0]);
      CoveredRunsSafe(m, uris[1..]);
    }
  }

  /** An absolute URI with a long host: the scheme, two slashes, letters, a dot, a letter, a slash. */
  function LongHost(scheme: string, n: nat): string {
    scheme + "//" + Unmatched(n) + ".a/"
  }

  lemma LongHostHasNoKey(m: Handlers, scheme: string, n: nat)
    requires scheme == "http:" || scheme == "https:"
    requires HTTP !in m && !Keyed(m, scheme) && forall k :: k in m ==> |k| <= n
    ensures KeyFor(m, LongHost(scheme, n)).None?
  {
    var uri := LongHost(scheme, n);
    assert IsAbsolute(uri);
    assert "http" <= scheme && scheme + "//" <= uri;
    SchemeIsCut(uri, scheme);
    forall i: nat | IsCut(uri, i) ensures Quote(uri[..i]) !in m {
      LongHostCuts(scheme, n, i);
      assert |Quote(uri[..i])| == i + 2;
    }
  }

  lemma LongHostCuts(scheme: string, n: nat, i: nat)
    requires (scheme == "http:" || scheme == "https:") && IsCut(LongHost(scheme, n), i)
    ensures i == |scheme| || i == |scheme| + 1 || i > n
  {
    var uri, k := LongHost(scheme, n), |scheme| + 2;
    assert forall j :: 0 <= j < |scheme| ==> uri[j] == scheme[j] && uri[j] != '/';
    assert forall j :: k <= j < k + n ==> uri[j] == 'a';
  }

  /** A URI made of harmless characters that a checked line can carry and that leads to a call
      through a null handler. */
  lemma UncoveredCrashes(m: Handlers) returns (stray: string)
    requires !Covered(m)
    ensures StartsTarget(stray) && Crashes(m, [stray, "/"])
    ensures forall i :: 0 <= i < |stray| ==> stray[i] in "htps:/.a"
  {
    hide Crashes, KeyFor;
    var n := LongerThanKeys(m.Keys);
    if Quote("") !in m {
      stray := "/" + Unmatched(n);
      LongPathHasNoKey(m, n);
    } else {
      var scheme := if Keyed(m, "http:") then "https:" else "http:";
      stray := LongHost(scheme, n);
      LongHostHasNoKey(m, scheme, n);
      LongHostStarts(scheme, n);
    }
    StrayThenRoot(m, stray);
  }

  lemma LongPathHasNoKey(m: Handlers, n: nat)
    requires Quote("") !in m && n > 0 && forall k :: k in m ==> |k| <= n
    ensures var uri := "/" + Unmatched(n);
            KeyFor(m, uri).None? && forall i :: 0 <= i < |uri| ==> uri[i] in "htps:/.a"
  {
    var uri := "/" + Unmatched(n);
    assert uri[0] == '/' && forall i :: 0 < i < |uri| ==> uri[i] == 'a';
    assert '/' in "htps:/.a" && 'a' in "htps:/.a";
    assert uri[..0] == "" && |Quote(uri)| > n;
    assert LongestCut(m, uri, |uri|).None?;
  }

  lemma LongHostStarts(scheme: string, n: nat)
    requires scheme == "http:" || scheme == "https:"
    ensures StartsTarget(LongHost(scheme, n))
    ensures forall i :: 0 <= i < |LongHost(scheme, n)| ==> LongHost(scheme, n)[i] in "htps:/.a"
  {
    var uri := LongHost(scheme, n);
    assert scheme + "//" == (if scheme == "http:" then "http://" else "https://") && scheme + "//" <= uri;
    forall i | 0 <= i < |uri| ensures uri[i] in "htps:/.a" {
      assert 'a' in "htps:/.a";
    }
  }

  ghost predicate NeverCrashesAdmissible(m: Handlers) {
    forall uris: seq<string> :: AllAdmissible(uris) ==> !Crashes(m, uris)
  }

  /** The same question for runs of admissible URIs only. */
  lemma AdmissibleRunsSafeIff(m: Handlers)
    requires NoNulls(m)
    ensures NeverCrashesAdmissible(m) <==> Covered(m)
  {
    hide Crashes, Covered, NoNulls;
    if Covered(m) {
      forall uris: seq<string> | AllAdmissible(uris) ensures !Crashes(m, uris) {
        CoveredRunsSafe(m, uris);
      }
    } else {
      var stray := UncoveredCrashes(m);
      assert AllAdmissible([stray, "/"]);
    }
  }
}
