/**
 * The navigation highlight of `Header.jsx`: which of the three menu entries is shown as the current
 * page for a given location path.
 */
module Header {
  import opened Text

  /** The menu's paths: Home, Start Quiz and Leaderboard. */
  const NavigationPaths: seq<string> := ["/", "/entry", "/leaderboard"]

  /** `isActivePath`: the root only on the root itself, any other path on every location it prefixes. */
  predicate IsActivePath(path: string, pathname: string) {
    (path == "/" && pathname == "/") || (path != "/" && StartsWith(pathname, path))
  }

  /** The Home entry is active on "/" and nowhere else. */
  lemma HomeOnlyAtRoot(pathname: string)
    ensures IsActivePath("/", pathname) <==> pathname == "/"
  {
  }

  /** The match is by characters, not by path segments: "/entry" also lights up on "/entryX". */
  lemma PrefixIsNotSegmentAware()
    ensures IsActivePath("/entry", "/entryX")
    ensures IsActivePath("/entry", "/entry/details")
    ensures !IsActivePath("/entry", "/entr")
  {
    assert "/entryX"[..|"/entry"|] == "/entry";
    assert "/entry/details"[..|"/entry"|] == "/entry";
  }

  /** For whatever location, at most one of the three menu entries is active. */
  lemma AtMostOneActive(pathname: string, i: nat, j: nat)
    requires i < j < |NavigationPaths|
    ensures !(IsActivePath(NavigationPaths[i], pathname) && IsActivePath(NavigationPaths[j], pathname))
  {
    if i == 1 && j == 2 && IsActivePath(NavigationPaths[i], pathname) {
      assert pathname[1] == 'e';
    }
  }

  /** The entries that are active for a location, in menu order. */
  function ActiveEntries(pathname: string): (r: seq<string>)
    ensures |r| <= 1
    ensures forall p :: p in r <==> p in NavigationPaths && IsActivePath(p, pathname)
  {
    var home := if IsActivePath("/", pathname) then ["/"] else [];
    var entry := if IsActivePath("/entry", pathname) then ["/entry"] else [];
    var board := if IsActivePath("/leaderboard", pathname) then ["/leaderboard"] else [];
    AtMostOneActive(pathname, 0, 1);
    AtMostOneActive(pathname, 0, 2);
    AtMostOneActive(pathname, 1, 2);
    home + entry + board
  }
}
