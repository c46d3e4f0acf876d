/**
 * Availability domains: the names the provider reports, sorted, with the
 * configured list as a fallback when the listing fails; and the order in
 * which the claim loop visits them.
 */
module Domains {
  import opened Options

  // ---------------------------------------------------------------------
  // Python's ordering of strings
  // ---------------------------------------------------------------------

  /** `a <= b` for Python strings: code point by code point, a proper prefix first. */
  predicate LexLe(a: string, b: string) {
    a == [] || (b != [] && (a[0] < b[0] || (a[0] == b[0] && LexLe(a[1..], b[1..]))))
  }

  /** Any two strings are ordered one way or the other. */
  lemma {:induction false} LexLeTotal(a: string, b: string)
    ensures LexLe(a, b) || LexLe(b, a)
  {
    if a != [] && b != [] && a[0] == b[0] {
      LexLeTotal(a[1..], b[1..]);
    }
  }

  /** Each name is at most the next one. */
  predicate Sorted(s: seq<string>) {
    forall k :: 0 < k < |s| ==> LexLe(s[k - 1], s[k])
  }

  /** Puts `x` into a sorted list before the first name it does not exceed. */
  function Insert(x: string, s: seq<string>): (r: seq<string>)
    requires Sorted(s)
    ensures Sorted(r)
    ensures multiset(r) == multiset(s) + multiset{x}
    ensures r != [] && (r[0] == x || (s != [] && r[0] == s[0]))
  {
    if s == [] || LexLe(x, s[0]) then [x] + s
    else
      LexLeTotal(x, s[0]);
      var t := Insert(x, s[1..]);
      assert s == [s[0]] + s[1..];
      [s[0]] + t
  }

  /** `sorted(names)`: the same names, in ascending order. */
  function SortNames(names: seq<string>): (r: seq<string>)
    ensures Sorted(r)
    ensures multiset(r) == multiset(names)
  {
    if names == [] then []
    else
      assert names == [names[0]] + names[1..];
      Insert(names[0], SortNames(names[1..]))
  }

  /**
   * The domain names the claim works with: the provider's listing sorted by
   * name, or the configured list unchanged when the listing raised
   * (`discovered` is `None`).
   */
  function ListAvailabilityDomains(discovered: Option<seq<string>>, configured: seq<string>): (r: seq<string>)
    ensures discovered.None? ==> r == configured
    ensures discovered.Some? ==> Sorted(r) && multiset(r) == multiset(discovered.value)
  {
    match discovered
    case Some(names) => SortNames(names)
    case None => configured
  }

  // ---------------------------------------------------------------------
  // The visiting order
  // ---------------------------------------------------------------------

  /** `x` is `y` with some elements left out, order kept. */
  predicate IsSubsequence(x: seq<string>, y: seq<string>) {
    x == [] || (y != [] && (if x[0] == y[0] then IsSubsequence(x[1..], y[1..]) else IsSubsequence(x, y[1..])))
  }

  /** The configured names that the provider really has, in configured order. */
  function KeepReal(configured: seq<string>, realAds: seq<string>): (r: seq<string>)
    ensures IsSubsequence(r, configured)
    ensures forall a :: a in r <==> a in configured && a in realAds
    ensures forall a :: multiset(r)[a] == if a in realAds then multiset(configured)[a] else 0
  {
    if configured == [] then []
    else
      var rest := KeepReal(configured[1..], realAds);
      assert configured == [configured[0]] + configured[1..];
      if configured[0] in realAds then [configured[0]] + rest
      else
        assert rest == [] || rest[0] != configured[0];
        rest
  }

  /**
   * The order in which the loop visits domains: the configured ones that
   * really exist, in configured order; failing that, every real one; failing
   * that, the configured list.
   */
  function AdOrder(configured: seq<string>, realAds: seq<string>): (r: seq<string>)
    ensures forall a :: a in r ==> a in configured || a in realAds
    ensures (exists a :: a in configured && a in realAds) ==>
      && IsSubsequence(r, configured)
      && (forall a :: a in r <==> a in configured && a in realAds)
      && (forall a :: multiset(r)[a] == if a in realAds then multiset(configured)[a] else 0)
    ensures (forall a :: a in configured ==> a !in realAds) ==>
      r == if realAds != [] then realAds else configured
  {
    var kept := KeepReal(configured, realAds);
    if kept != [] then assert kept[0] in kept; kept
    else if realAds != [] then realAds else configured
  }
}
