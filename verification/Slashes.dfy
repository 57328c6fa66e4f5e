/** Prefixes of a path that end just before a slash. */
module Slashes {
  import opened Common

  /** A position where a path can be cut. */
  predicate IsCut(path: string, i: nat) {
    i < |path| && path[i] == '/'
  }

  /** std::string::find_last_of("/") over the first n characters. */
  function LastSlash(path: string, n: nat): (r: Option<nat>)
    requires n <= |path|
    ensures r.Some? ==> r.value < n && IsCut(path, r.value)
    ensures forall i: nat :: i < n && IsCut(path, i) ==> r.Some? && i <= r.value
  {
    if n == 0 then None else if path[n - 1] == '/' then Some(n - 1) else LastSlash(path, n - 1)
  }

  lemma {:induction false} LastSlashOfPrefix(path: string, n: nat, k: nat)
    requires k <= n <= |path|
    ensures LastSlash(path[..n], k) == LastSlash(path, k)
  {
    if k > 0 {
      LastSlashOfPrefix(path, n, k - 1);
    }
  }
}
