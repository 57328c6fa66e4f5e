/** StaticFileHandler::replace_path: the longest rooted location prefix of a URI is replaced by its
    root directory, over a map in which every lookup may insert an empty entry. */
module StaticFiles {
  import opened Common
  import opened Slashes

  type Roots = map<string, string>

  /** The root of a location; an absent or empty entry is no root. */
  function RootOf(m: Roots, location: string): string {
    if location in m then m[location] else ""
  }

  /** The longest prefix of uri, cut at a slash before position n, that has a root. */
  function LongestRooted(m: Roots, uri: string, n: nat): (r: Option<nat>)
    requires n <= |uri|
    ensures r.Some? ==> r.value < n && IsCut(uri, r.value) && RootOf(m, uri[..r.value]) != ""
    ensures forall i: nat :: i < n && IsCut(uri, i) && RootOf(m, uri[..i]) != "" ==> r.Some? && i <= r.value
  {
    if n == 0 then None
    else if IsCut(uri, n - 1) && RootOf(m, uri[..n - 1]) != "" then Some(n - 1)
    else LongestRooted(m, uri, n - 1)
  }

  /** The file a URI stands for. A URI without a slash is looked up whole. */
  function Resolve(m: Roots, uri: string): string {
    if LastSlash(uri, |uri|).None? then
      if RootOf(m, uri) == "" then "" else RootOf(m, uri) + "/" + uri
    else
      match LongestRooted(m, uri, |uri|)
      case None => ""
      case Some(i) => RootOf(m, uri[..i]) + uri[i..]
  }

  /** The location has a root. */
  predicate Rooted(m: Roots, location: string) { location in m && m[location] != "" }

  /** The file path, told by the roots alone: the root of the longest rooted prefix before a slash and
      then the rest of the URI from that slash on; for a URI without a slash its own root, a slash and
      the URI; and empty if nothing is rooted. */
  ghost predicate StandsFor(m: Roots, uri: string, path: string) {
    && ('/' !in uri ==> path == if Rooted(m, uri) then m[uri] + "/" + uri else "")
    && (forall i: nat :: i < |uri| && uri[i] == '/' && Rooted(m, uri[..i])
          && (forall j: nat :: i < j < |uri| && uri[j] == '/' ==> !Rooted(m, uri[..j]))
          ==> path == m[uri[..i]] + uri[i..])
    && ('/' in uri && (forall i: nat :: i < |uri| && uri[i] == '/' ==> !Rooted(m, uri[..i])) ==> path == "")
  }

  lemma ResolveStandsFor(m: Roots, uri: string)
    ensures StandsFor(m, uri, Resolve(m, uri))
  {
    var slash := LastSlash(uri, |uri|);
    assert slash.None? <==> '/' !in uri by {
      assert forall i: nat :: i < |uri| && uri[i] == '/' ==> IsCut(uri, i);
    }
    assert forall i: nat :: i < |uri| ==> (RootOf(m, uri[..i]) != "" <==> Rooted(m, uri[..i]));
    assert forall i: nat :: i < |uri| && uri[i] == '/' ==> IsCut(uri, i);
  }

  /** m' is m with, at most, empty entries added for prefixes of uri. */
  ghost predicate GrownBy(m: Roots, m': Roots, uri: string) {
    && (forall k :: k in m ==> k in m' && m'[k] == m[k])
    && (forall k :: k in m' && k !in m ==> m'[k] == "" && k <= uri)
  }

  function Touched(m: Roots, key: string): Roots {
    if key in m then m else m[key := ""]
  }

  lemma TouchGrows(m: Roots, m': Roots, uri: string, n: nat)
    requires GrownBy(m, m', uri) && n <= |uri|
    ensures GrownBy(m, Touched(m', uri[..n]), uri)
    ensures RootOf(m', uri[..n]) == RootOf(m, uri[..n])
  {
  }

  /** One more segment moves from the prefix to the subpath. */
  lemma SegmentMoves(uri: string, at: nat, pos: nat, subpath: string, file: string)
    requires pos <= at <= |uri| && subpath + "/" + file == uri[at..]
    ensures uri[..at][pos..] + subpath + "/" + file == uri[pos..]
  {
    assert uri[..at][pos..] + uri[at..] == uri[pos..];
    assert uri[..at][pos..] + (subpath + "/" + file) == uri[..at][pos..] + subpath + "/" + file;
  }

  class StaticFileHandler {
    var locationToRoot: Roots

    constructor (roots: Roots)
      ensures locationToRoot == roots
    {
      locationToRoot := roots;
    }

    /** operator[]: an absent key is inserted with an empty value. */
    method Lookup(key: string) returns (root: string)
      modifies this
      ensures root == RootOf(old(locationToRoot), key)
      ensures locationToRoot == Touched(old(locationToRoot), key)
    {
      if key !in locationToRoot {
        locationToRoot := locationToRoot[key := ""];
      }
      root := locationToRoot[key];
    }

    method ReplacePath(uri: string) returns (path: string)
      modifies this
      ensures path == Resolve(old(locationToRoot), uri)
      ensures GrownBy(old(locationToRoot), locationToRoot, uri)
    {
      hide LastSlash, LongestRooted, GrownBy, RootOf, Touched;
      ghost var m := locationToRoot;
      var slash := LastSlash(uri, |uri|);
      var file := if slash.None? then uri else uri[slash.value + 1..];
      var prefix := if slash.None? then uri else uri[..slash.value];
      var subpath := "";
      ghost var at: nat := if slash.None? then |uri| else slash.value;
      GrownAtStart(m, uri);
      TouchGrows(m, locationToRoot, uri, at);
      assert uri[..|uri|] == uri;
      var root := Lookup(prefix);
      while root == ""
        invariant GrownBy(m, locationToRoot, uri)
        invariant at <= |uri| && prefix == uri[..at] && root == RootOf(m, prefix)
        invariant slash.None? <==> at == |uri|
        invariant slash.None? ==> subpath == "" && file == uri
        invariant slash.Some? ==> IsCut(uri, at) && subpath + "/" + file == uri[at..]
        invariant forall i: nat :: at < i && IsCut(uri, i) ==> RootOf(m, uri[..i]) == ""
        decreases |prefix|, root == ""
      {
        LastSlashOfPrefix(uri, at, at);
        var pos := LastSlash(prefix, |prefix|);
        if pos == None {
          assert forall i: nat :: IsCut(uri, i) ==> RootOf(m, uri[..i]) == "";
          return "";
        }
        SegmentMoves(uri, at, pos.value, subpath, file);
        subpath := prefix[pos.value..] + subpath;
        prefix := prefix[..pos.value];
        at := pos.value;
        assert prefix == uri[..at];
        TouchGrows(m, locationToRoot, uri, at);
        root := Lookup(prefix);
      }
      path := root + subpath + "/" + file;
      if slash.Some? {
        assert LongestRooted(m, uri, |uri|) == Some(at);
        assert root + (subpath + "/" + file) == path;
      }
    }
  }

  lemma GrownAtStart(m: Roots, uri: string)
    ensures GrownBy(m, m, uri)
  {
  }

  /* ---------- lookups leave no trace in later answers ---------- */

  lemma {:induction false} LongestRootedSame(m: Roots, m': Roots, uri: string, n: nat)
    requires n <= |uri| && forall k :: RootOf(m, k) == RootOf(m', k)
    ensures LongestRooted(m, uri, n) == LongestRooted(m', uri, n)
  {
    if n > 0 {
      LongestRootedSame(m, m', uri, n - 1);
    }
  }

  lemma ResolveSame(m: Roots, m': Roots, uri: string)
    requires forall k :: RootOf(m, k) == RootOf(m', k)
    ensures Resolve(m, uri) == Resolve(m', uri)
  {
    LongestRootedSame(m, m', uri, |uri|);
  }

  /** A run of calls: ms[i] is the map before the i-th call, for URI uris[i]. */
  ghost predicate IsRun(ms: seq<Roots>, uris: seq<string>) {
    |ms| == |uris| + 1 && forall i :: 0 <= i < |uris| ==> GrownBy(ms[i], ms[i + 1], uris[i])
  }

  /** Whatever was looked up before, every URI resolves as it did at the start. */
  lemma {:induction false} LookupsNeverInterfere(ms: seq<Roots>, uris: seq<string>, uri: string)
    requires IsRun(ms, uris)
    ensures Resolve(ms[|uris|], uri) == Resolve(ms[0], uri)
    decreases |uris|
  {
    if uris != [] {
      var n := |uris| - 1;
      assert IsRun(ms[..n + 1], uris[..n]);
      LookupsNeverInterfere(ms[..n + 1], uris[..n], uri);
      assert GrownBy(ms[n], ms[n + 1], uris[n]);
      ResolveSame(ms[n], ms[n + 1], uri);
    }
  }
}
