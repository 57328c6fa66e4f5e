/** ProxyHandler::parse_html_body: every link that starts with a slash gets the served prefix. */
module LinkRewriter {
  import opened ConfigTree
  import Routing

  /** A slash right after a quote that is not itself right after a quote. */
  predicate IsLink(msg: string, i: nat)
    requires i < |msg|
  {
    && msg[i] == '/'
    && i >= 1 && msg[i - 1] == '"'
    && (i >= 2 ==> msg[i - 2] != '"')
  }

  /** The served prefix without a trailing slash. */
  function Target(serveAddr: string): string
    requires serveAddr != ""
  {
    if serveAddr[|serveAddr| - 1] == '/' then serveAddr[..|serveAddr| - 1] else serveAddr
  }

  /** The first n characters of msg, with the target put before every link slash among them. */
  function Rewritten(target: string, msg: string, n: nat): string
    requires n <= |msg|
  {
    if n == 0 then ""
    else Rewritten(target, msg, n - 1) + (if IsLink(msg, n - 1) then target else "") + [msg[n - 1]]
  }

  /** What the loop has in curr_target after n characters: the run of quotes just before n. */
  function QuoteRun(msg: string, n: nat): string
    requires n <= |msg|
  {
    if n == 0 || msg[n - 1] != '"' then "" else QuoteRun(msg, n - 1) + "\""
  }

  lemma SingleQuote(msg: string, n: nat)
    requires n < |msg| && msg[n] == '/'
    ensures QuoteRun(msg, n) + "/" == "\"/" <==> IsLink(msg, n)
  {
    if n >= 1 && msg[n - 1] == '"' {
      assert QuoteRun(msg, n) == QuoteRun(msg, n - 1) + "\"";
      if n >= 2 && msg[n - 2] == '"' {
        assert |QuoteRun(msg, n)| >= 2;
      } else {
        assert QuoteRun(msg, n - 1) == "" && QuoteRun(msg, n) == "\"";
        assert "\"" + "/" == "\"/";
      }
    } else {
      assert QuoteRun(msg, n) + "/" == "/";
    }
  }

  method ParseHtmlBody(serveAddr: string, msg: string) returns (edited: string)
    requires serveAddr != ""
    ensures edited == Rewritten(Target(serveAddr), msg, |msg|)
    ensures serveAddr[|serveAddr| - 1] == '/' ==> edited == Rewritten(serveAddr[..|serveAddr| - 1], msg, |msg|)
    ensures serveAddr[|serveAddr| - 1] != '/' ==> edited == Rewritten(serveAddr, msg, |msg|)
  {
    var target := serveAddr;
    if serveAddr[|serveAddr| - 1] == '/' {
      target := serveAddr[..|serveAddr| - 1];
    }
    edited := "";
    var current := "";
    for i := 0 to |msg|
      invariant edited == Rewritten(target, msg, i)
      invariant current == QuoteRun(msg, i)
    {
      var c := msg[i];
      if c != '"' && c != '/' {
        edited := edited + [c];
        current := "";
      } else if c == '"' {
        edited := edited + [c];
        current := current + "\"";
      } else {
        SingleQuote(msg, i);
        current := current + "/";
        if current == "\"/" {
          edited := edited + (target + "/");
        } else {
          edited := edited + [c];
        }
        current := "";
      }
    }
  }

  /* ---------- what is inserted, told by how the page reads ---------- */

  /** Rewriting a whole page. */
  function Page(target: string, msg: string): string { Rewritten(target, msg, |msg|) }

  /** Without slashes nothing is inserted. */
  lemma {:induction false} NoSlashNoChange(target: string, msg: string, n: nat)
    requires n <= |msg| && forall i :: 0 <= i < n ==> msg[i] != '/'
    ensures Rewritten(target, msg, n) == msg[..n]
  {
    if n > 0 {
      NoSlashNoChange(target, msg, n - 1);
    }
  }

  lemma {:induction false} RewrittenOfPrefix(target: string, msg: string, k: nat, n: nat)
    requires n <= k <= |msg|
    ensures Rewritten(target, msg[..k], n) == Rewritten(target, msg, n)
  {
    if n > 0 {
      RewrittenOfPrefix(target, msg, k, n - 1);
    }
  }

  /** At any slash the page falls into what is before and what is after, which are rewritten by
      themselves; the target is put before the slash exactly if the text before it ends in one quote
      and not in two. */
  lemma SlashSplitsPage(target: string, before: string, after: string)
    ensures var n := |before|;
            var linked := n >= 1 && before[n - 1] == '"' && (n >= 2 ==> before[n - 2] != '"');
            Page(target, before + "/" + after)
            == Page(target, before) + (if linked then target else "") + "/" + Page(target, after)
  {
    var msg, n := before + "/" + after, |before|;
    assert msg[..n] == before && msg[n] == '/' && msg[n + 1..] == after;
    RewrittenOfPrefix(target, msg, n, n);
    RewrittenAfterSlash(target, msg, n, |after|);
    assert n >= 1 ==> msg[n - 1] == before[n - 1];
    assert n >= 2 ==> msg[n - 2] == before[n - 2];
  }

  function CountLinks(msg: string, n: nat): nat
    requires n <= |msg|
  {
    if n == 0 then 0 else CountLinks(msg, n - 1) + (if IsLink(msg, n - 1) then 1 else 0)
  }

  lemma OneMoreTarget(k: nat, n: nat)
    ensures (k + 1) * n == k * n + n
  {
  }

  lemma {:induction false} RewrittenLength(target: string, msg: string, n: nat)
    requires n <= |msg|
    ensures |Rewritten(target, msg, n)| == n + CountLinks(msg, n) * |target|
  {
    if n > 0 {
      RewrittenLength(target, msg, n - 1);
      OneMoreTarget(CountLinks(msg, n - 1), |target|);
    }
  }

  /* ---------- deleting the insertions, for any target ---------- */

  /** Which characters of the output were inserted. */
  function Inserted(target: string, msg: string, n: nat): seq<bool>
    requires n <= |msg|
  {
    if n == 0 then []
    else Inserted(target, msg, n - 1) + (if IsLink(msg, n - 1) then Marks(true, |target|) else []) + Marks(false, 1)
  }

  function Marks(mark: bool, n: nat): seq<bool> {
    seq(n, i => mark)
  }

  /** The characters of s that carry the given mark, in order. */
  function Marked(mark: bool, s: string, marks: seq<bool>): string
    requires |s| == |marks|
  {
    if s == "" then ""
    else Marked(mark, s[..|s| - 1], marks[..|s| - 1]) + (if marks[|s| - 1] == mark then [s[|s| - 1]] else "")
  }

  lemma MarksLength(mark: bool, n: nat)
    ensures |Marks(mark, n)| == n
  {
  }

  function Repeated(s: string, n: nat): string {
    if n == 0 then "" else Repeated(s, n - 1) + s
  }

  lemma {:induction false} MarkedAppend(mark: bool, s: string, marks: seq<bool>, t: string, m: bool)
    requires |s| == |marks|
    ensures Marked(mark, s + t, marks + Marks(m, |t|)) == if m == mark then Marked(mark, s, marks) + t else Marked(mark, s, marks)
    decreases |t|
  {
    if t == "" {
      assert s + t == s && marks + Marks(m, 0) == marks;
    } else {
      var n := |t| - 1;
      MarkedAppend(mark, s, marks, t[..n], m);
      assert (s + t)[..|s| + n] == s + t[..n];
      assert (marks + Marks(m, |t|))[..|s| + n] == marks + Marks(m, n);
      assert t[..n] + [t[n]] == t;
    }
  }

  lemma LinkAdds(target: string, msg: string, n: nat)
    requires 0 < n <= |msg|
    ensures Repeated(target, CountLinks(msg, n))
         == Repeated(target, CountLinks(msg, n - 1)) + if IsLink(msg, n - 1) then target else ""
  {
  }

  /** Deleting the inserted characters gives the page back, whatever the target, and what is deleted
      is the target once for every link. */
  lemma {:induction false} DeletingInsertions(target: string, msg: string, n: nat)
    requires n <= |msg|
    ensures |Inserted(target, msg, n)| == |Rewritten(target, msg, n)|
    ensures Marked(false, Rewritten(target, msg, n), Inserted(target, msg, n)) == msg[..n]
    ensures Marked(true, Rewritten(target, msg, n), Inserted(target, msg, n)) == Repeated(target, CountLinks(msg, n))
  {
    if n > 0 {
      hide Marked, Marks, Repeated, CountLinks, IsLink;
      DeletingInsertions(target, msg, n - 1);
      var s, marks := Rewritten(target, msg, n - 1), Inserted(target, msg, n - 1);
      var t := if IsLink(msg, n - 1) then target else "";
      var c := [msg[n - 1]];
      MarksLength(true, |t|);
      MarksLength(false, |c|);
      assert Rewritten(target, msg, n) == (s + t) + c;
      assert Inserted(target, msg, n) == (marks + Marks(true, |t|)) + Marks(false, |c|);
      MarkedBoth(s, marks, t, c);
      assert msg[..n - 1] + c == msg[..n];
      LinkAdds(target, msg, n);
    }
  }

  lemma MarkedBoth(s: string, marks: seq<bool>, t: string, c: string)
    requires |s| == |marks|
    ensures var all := marks + Marks(true, |t|) + Marks(false, |c|);
            && Marked(false, s + t + c, all) == Marked(false, s, marks) + c
            && Marked(true, s + t + c, all) == Marked(true, s, marks) + t
  {
    hide Marked, Marks;
    MarksLength(true, |t|);
    MarksLength(false, |c|);
    MarkedAppend(false, s, marks, t, true);
    MarkedAppend(false, s + t, marks + Marks(true, |t|), c, false);
    MarkedAppend(true, s, marks, t, true);
    MarkedAppend(true, s + t, marks + Marks(true, |t|), c, false);
  }

  /* ---------- undoing the rewriting without knowing the page ---------- */

  /** The first link at or after position n, or |s|. */
  function FirstLink(s: string, n: nat := 0): (i: nat)
    requires n <= |s|
    ensures n <= i <= |s|
    ensures forall j :: n <= j < i ==> !IsLink(s, j)
    ensures i < |s| ==> IsLink(s, i)
    decreases |s| - n
  {
    if n == |s| || IsLink(s, n) then n else FirstLink(s, n + 1)
  }

  predicate HasLink(s: string) { FirstLink(s) < |s| }

  /** What a link looks like in the output: its quote, the target and its slash. */
  function Landing(target: string): string {
    "\"" + target + "/"
  }

  /** Removing the targets from a rewritten page: the first link in it shows where the first target
      was put, and what follows the slash after that is again a rewritten page. */
  function Unlinked(target: string, s: string): string
    decreases |s|
  {
    var q, k := FirstLink(s), FirstLink(Landing(target));
    var i := q + 1 - k;
    if q == |s| || i < 0 || i + |target| + 1 > |s| then s
    else s[..i] + "/" + Unlinked(target, s[i + |target| + 1..])
  }

  lemma LinkAfterSlash(msg: string, i: nat, n: nat)
    requires i + 1 + n < |msg| && msg[i] == '/'
    ensures IsLink(msg, i + 1 + n) == IsLink(msg[i + 1..], n)
  {
    if n >= 1 {
      assert msg[i + 1..][n - 1] == msg[i + n];
    }
    if n >= 2 {
      assert msg[i + 1..][n - 2] == msg[i + n - 1];
    }
  }

  /** After a slash the rewriting starts afresh. */
  lemma {:induction false} RewrittenAfterSlash(target: string, msg: string, i: nat, n: nat)
    requires i + 1 + n <= |msg| && msg[i] == '/'
    ensures Rewritten(target, msg, i + 1 + n) == Rewritten(target, msg, i + 1) + Rewritten(target, msg[i + 1..], n)
  {
    if n > 0 {
      hide IsLink;
      RewrittenAfterSlash(target, msg, i, n - 1);
      LinkAfterSlash(msg, i, n - 1);
    }
  }

  /** A page without links is left as it is. */
  lemma {:induction false} NoLinksNoChange(target: string, msg: string, n: nat)
    requires n <= |msg| && forall i :: 0 <= i < n ==> !IsLink(msg, i)
    ensures Rewritten(target, msg, n) == msg[..n]
  {
    if n > 0 {
      NoLinksNoChange(target, msg, n - 1);
    }
  }

  lemma RewrittenLink(target: string, msg: string, i: nat)
    requires i < |msg| && IsLink(msg, i)
    ensures Rewritten(target, msg, i + 1) == Rewritten(target, msg, i) + target + "/"
  {
  }

  lemma AroundFirstLink(msg: string)
    requires HasLink(msg)
    ensures var i := FirstLink(msg);
            && i >= 1 && (i >= 2 ==> msg[i - 2] != '"')
            && msg[..i] == msg[..i - 1] + "\"" && msg[i] == '/'
            && msg == msg[..i - 1] + "\"" + "/" + msg[i + 1..]
  {
  }

  lemma LandingJoins(a: string, target: string, rest: string)
    ensures a + "\"" + target + "/" + rest == a + Landing(target) + rest
  {
    assert a + "\"" + target + "/" == a + Landing(target);
  }

  /** A page up to its first link, and from there on. */
  lemma RewrittenAtLink(target: string, msg: string)
    requires HasLink(msg)
    ensures var i := FirstLink(msg);
            && i >= 1
            && Rewritten(target, msg, |msg|)
               == msg[..i - 1] + Landing(target) + Rewritten(target, msg[i + 1..], |msg| - i - 1)
  {
    hide IsLink, Rewritten, Landing;
    var i := FirstLink(msg);
    AroundFirstLink(msg);
    NoLinksNoChange(target, msg, i);
    RewrittenLink(target, msg, i);
    RewrittenAfterSlash(target, msg, i, |msg| - i - 1);
    LandingJoins(msg[..i - 1], target, Rewritten(target, msg[i + 1..], |msg| - i - 1));
  }

  lemma LinkInside(a: string, d: string, rest: string, j: nat)
    requires j < |d| && d[0] == '"' && (a != "" ==> a[|a| - 1] != '"')
    ensures IsLink(a + d + rest, |a| + j) == IsLink(d, j)
  {
    var s := a + d + rest;
    assert s[|a| + j] == d[j];
    if j >= 1 {
      assert s[|a| + j - 1] == d[j - 1];
    }
    if j >= 2 {
      assert s[|a| + j - 2] == d[j - 2];
    }
  }

  lemma LinkBefore(a: string, rest: string, j: nat)
    requires j < |a|
    ensures IsLink(a + rest, j) == IsLink(a, j)
  {
  }

  lemma NoLinkBefore(a: string, tail: string, other: string, j: nat)
    requires j < |a| && !IsLink(a + tail, j)
    ensures !IsLink(a + other, j)
  {
    LinkBefore(a, tail, j);
    LinkBefore(a, other, j);
  }

  lemma LandingStarts(target: string)
    ensures Landing(target) != "" && Landing(target)[0] == '"'
  {
  }

  lemma Rejoin(s: string, i: nat)
    requires i <= |s|
    ensures s[..i] + s[i..] == s
  {
  }

  /** The first link of the output lies inside the first landing. */
  lemma FirstLinkLands(target: string, msg: string)
    requires HasLink(msg) && HasLink(Landing(target))
    ensures FirstLink(Rewritten(target, msg, |msg|)) == FirstLink(msg) - 1 + FirstLink(Landing(target))
  {
    hide IsLink, Rewritten, FirstLink, Landing;
    var i, d := FirstLink(msg), Landing(target);
    AroundFirstLink(msg);
    RewrittenAtLink(target, msg);
    LandingStarts(target);
    var a, tail := msg[..i - 1], msg[i - 1..];
    assert a + tail == msg by { Rejoin(msg, i - 1); }
    FirstLinkIn(a, tail, d, Rewritten(target, msg[i + 1..], |msg| - i - 1));
  }

  lemma FirstLinkIn(a: string, tail: string, d: string, rest: string)
    requires FirstLink(a + tail) >= |a| && (a != "" ==> a[|a| - 1] != '"')
    requires HasLink(d) && d[0] == '"'
    ensures FirstLink(a + d + rest) == |a| + FirstLink(d)
  {
    hide IsLink;
    var out, k := a + d + rest, FirstLink(d);
    assert out == a + (d + rest);
    forall j | 0 <= j < |a| + k ensures !IsLink(out, j) {
      if j < |a| {
        NoLinkBefore(a, tail, d + rest, j);
      } else {
        LinkInside(a, d, rest, j - |a|);
      }
    }
    LinkInside(a, d, rest, k);
  }

  /** If the landing itself shows a link, as it does for a prefix that starts with a slash, the page
      the rewriting started from can be recovered from the rewritten page alone. */
  lemma {:induction false} LinksCanBeUndone(target: string, msg: string)
    requires HasLink(Landing(target))
    ensures Unlinked(target, Rewritten(target, msg, |msg|)) == msg
    decreases |msg|
  {
    hide IsLink, Rewritten;
    var out := Rewritten(target, msg, |msg|);
    if HasLink(msg) {
      var i := FirstLink(msg);
      var more := Rewritten(target, msg[i + 1..], |msg| - i - 1);
      RewrittenAtLink(target, msg);
      FirstLinkLands(target, msg);
      AroundFirstLink(msg);
      UnlinkFirst(target, msg[..i - 1] + "\"", more, out);
      LinksCanBeUndone(target, msg[i + 1..]);
    } else {
      NoLinksNoChange(target, msg, |msg|);
      assert msg[..|msg|] == msg;
    }
  }

  lemma UnlinkFirst(target: string, before: string, more: string, out: string)
    requires before != "" && out == before[..|before| - 1] + Landing(target) + more
    requires before[|before| - 1] == '"'
    requires HasLink(Landing(target)) && FirstLink(out) == |before| - 1 + FirstLink(Landing(target))
    ensures Unlinked(target, out) == before + "/" + Unlinked(target, more)
  {
    hide IsLink, FirstLink;
    var i := |before|;
    assert before == before[..i - 1] + "\"";
    assert out == before + target + "/" + more;
    assert out[..i] == before && out[i + |target| + 1..] == more;
  }

  /** Otherwise two different pages come out the same. */
  lemma LinksCollide(target: string)
    requires !HasLink(Landing(target))
    ensures "\"/" != Landing(target) && SameResult(target, "\"/", Landing(target))
  {
    var a, b := "\"/", Landing(target);
    assert Rewritten(target, a, 0) == "" && Rewritten(target, a, 1) == "\"";
    assert IsLink(a, 1);
    assert Rewritten(target, a, 2) == "\"" + target + "/";
    NoLinksNoChange(target, b, |b|);
    assert b[..|b|] == b;
  }

  predicate SameResult(target: string, a: string, b: string) {
    Rewritten(target, a, |a|) == Rewritten(target, b, |b|)
  }

  ghost predicate Injective(target: string) {
    forall a: string, b: string :: SameResult(target, a, b) ==> a == b
  }

  lemma SameResultSamePage(target: string, a: string, b: string)
    requires HasLink(Landing(target)) && SameResult(target, a, b)
    ensures a == b
  {
    LinksCanBeUndone(target, a);
    LinksCanBeUndone(target, b);
  }

  /** For every prefix, no two pages are rewritten to the same page if and only if the prefix between
      a quote and a slash has a link in it. Without quotes in the prefix, this means that it is empty
      or starts with a slash. */
  lemma InjectiveIff(target: string)
    ensures Injective(target) <==> HasLink(Landing(target))
    ensures '"' !in target ==> (HasLink(Landing(target)) <==> target == "" || target[0] == '/')
  {
    hide SameResult, FirstLink, HasLink;
    if HasLink(Landing(target)) {
      forall a: string, b: string | SameResult(target, a, b) ensures a == b {
        SameResultSamePage(target, a, b);
      }
    } else {
      LinksCollide(target);
      assert SameResult(target, "\"/", Landing(target));
    }
    if '"' !in target {
      QuoteFreeLanding(target);
    }
  }

  lemma QuoteFreeLanding(target: string)
    requires '"' !in target
    ensures HasLink(Landing(target)) <==> target == "" || target[0] == '/'
  {
    var d := Landing(target);
    if target == "" || target[0] == '/' {
      assert IsLink(d, 1);
    } else {
      forall i | 0 <= i < |d| ensures !IsLink(d, i) {
        if i >= 2 {
          assert d[i - 1] == target[i - 2] && d[i - 1] in target;
        }
      }
    }
  }

  /* ---------- the prefixes that are served ---------- */

  /** setLocation: the location without the quotes at its ends. */
  function ServedAddress(location: string): string {
    TrimFront(TrimBack(location))
  }

  function TrimBack(s: string): string {
    if s != "" && s[|s| - 1] == '"' then TrimBack(s[..|s| - 1]) else s
  }

  function TrimFront(s: string): string {
    if s != "" && s[0] == '"' then TrimFront(s[1..]) else s
  }

  lemma TrimTwoQuotes()
    ensures ServedAddress("\"\"") == ""
  {
    var key := "\"\"";
    assert key[..1] == "\"" && key[..1][..0] == "";
    assert TrimBack("\"") == TrimBack("") == "";
  }

  /** A handler is looked up under a quoted prefix, and a config token that is one has no further
      quotes; the handler then serves that prefix. */
  lemma ServedPrefixHasNoQuotes(prefix: string)
    requires Lexable(Routing.Quote(prefix))
    ensures '"' !in prefix && ServedAddress(Routing.Quote(prefix)) == prefix
  {
    var key := Routing.Quote(prefix);
    assert key[0] == '"' && IsQuoted(key, '"');
    assert forall i :: 0 <= i < |prefix| ==> key[i + 1] == prefix[i];
    if prefix == "" {
      TrimTwoQuotes();
      assert key == "\"\"";
    } else {
      var open := "\"" + prefix;
      assert key[..|key| - 1] == open && open[|open| - 1] == prefix[|prefix| - 1];
      assert open[|open| - 1] != '"';
      assert TrimBack(open) == open && TrimBack(key) == open;
      assert open[1..] == prefix && prefix[0] != '"';
      assert TrimFront(prefix) == prefix && TrimFront(open) == TrimFront(open[1..]);
    }
  }
}
