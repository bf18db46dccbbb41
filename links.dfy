/**
 * Link discovery on the entry page (index.js:31-36): every anchor's `href`,
 * kept when it contains the site's host name, then deduplicated by keeping
 * each element whose value first occurs at its own index, i.e. the first
 * occurrence of each value.
 */
module Links {

  /** The site's host name; `href.includes` tests it as a substring of the whole URL. */
  const Host: string := "hjalp.unak.is"

  /** `sub` occurs in `s` starting at index `i`. */
  predicate OccursAt(s: string, sub: string, i: int) {
    0 <= i <= |s| - |sub| && s[i..i + |sub|] == sub
  }

  /** `s.includes(sub)`: `sub` occurs at some position of `s`. */
  predicate Contains(s: string, sub: string) {
    exists i | 0 <= i <= |s| - |sub| :: OccursAt(s, sub, i)
  }

  /** `Array.prototype.indexOf`: the first index holding `x`, or -1. */
  function IndexOf(a: seq<string>, x: string): (r: int)
    ensures -1 <= r < |a|
    ensures r == -1 <==> x !in a
    ensures r >= 0 ==> a[r] == x && forall j :: 0 <= j < r ==> a[j] != x
  {
    if a == [] then -1
    else if a[0] == x then 0
    else
      var k := IndexOf(a[1..], x);
      if k == -1 then -1 else k + 1
  }

  /** The hrefs that contain the host name anywhere, in order, repeats kept. */
  function OnSite(hrefs: seq<string>): (r: seq<string>)
    ensures forall x :: x in r <==> x in hrefs && Contains(x, Host)
  {
    if hrefs == [] then []
    else (if Contains(hrefs[0], Host) then [hrefs[0]] else []) + OnSite(hrefs[1..])
  }

  /**
   * The first-occurrence filter (keep an element when the first index of its
   * value is its own index) applied from index `i` on.
   */
  function FirstsFrom(a: seq<string>, i: nat): seq<string>
    requires i <= |a|
    decreases |a| - i
  {
    if i == |a| then []
    else (if IndexOf(a, a[i]) == i then [a[i]] else []) + FirstsFrom(a, i + 1)
  }

  /** The filter from `i` on holds exactly the values whose first occurrence in `a` is at `i` or later. */
  lemma {:induction false} FirstsFromMembers(a: seq<string>, i: nat)
    requires i <= |a|
    ensures forall x {:trigger x in FirstsFrom(a, i)} :: x in FirstsFrom(a, i) <==> x in a && IndexOf(a, x) >= i
    decreases |a| - i
  {
    if i < |a| {
      FirstsFromMembers(a, i + 1);
      forall x | x in a && IndexOf(a, x) == i ensures x == a[i] {
      }
    }
  }

  /** The filter from `i` on is ordered by first occurrence in `a`. */
  lemma {:induction false} FirstsFromOrder(a: seq<string>, i: nat)
    requires i <= |a|
    ensures forall p, q :: 0 <= p < q < |FirstsFrom(a, i)| ==>
      IndexOf(a, FirstsFrom(a, i)[p]) < IndexOf(a, FirstsFrom(a, i)[q])
    decreases |a| - i
  {
    if i < |a| {
      FirstsFromMembers(a, i + 1);
      FirstsFromOrder(a, i + 1);
      var rest := FirstsFrom(a, i + 1);
      if IndexOf(a, a[i]) == i {
        var r := FirstsFrom(a, i);
        assert r == [a[i]] + rest;
        forall p, q | 0 <= p < q < |r| ensures IndexOf(a, r[p]) < IndexOf(a, r[q]) {
          assert r[q] == rest[q - 1] && r[q] in rest;
          if p > 0 {
            assert r[p] == rest[p - 1];
          }
        }
      }
    }
  }

  function Dedup(a: seq<string>): seq<string> {
    FirstsFrom(a, 0)
  }

  /** The link list `scrapeHelpPages` iterates over. */
  function Discover(hrefs: seq<string>): seq<string> {
    Dedup(OnSite(hrefs))
  }

  predicate NoDuplicates(a: seq<string>) {
    forall p, q :: 0 <= p < q < |a| ==> a[p] != a[q]
  }

  /** The host filter keeps the relative order of first occurrences. */
  lemma {:induction false} OnSiteOrder(hrefs: seq<string>, x: string, y: string)
    requires x in OnSite(hrefs) && y in OnSite(hrefs)
    ensures IndexOf(OnSite(hrefs), x) < IndexOf(OnSite(hrefs), y) <==> IndexOf(hrefs, x) < IndexOf(hrefs, y)
  {
    var h := hrefs;
    var rest := OnSite(h[1..]);
    assert h == [h[0]] + h[1..];
    if Contains(h[0], Host) {
      assert OnSite(h) == [h[0]] + rest;
    } else {
      assert OnSite(h) == rest;
    }
    if h[0] == x || h[0] == y {
      assert Contains(h[0], Host);
      if x != y {
        var other := if h[0] == x then y else x;
        IndexOfCons(h[0], rest, other);
        IndexOfCons(h[0], h[1..], other);
      }
    } else {
      OnSiteOrder(h[1..], x, y);
      IndexOfCons(h[0], h[1..], x);
      IndexOfCons(h[0], h[1..], y);
      if Contains(h[0], Host) {
        IndexOfCons(h[0], rest, x);
        IndexOfCons(h[0], rest, y);
      }
    }
  }

  lemma IndexOfCons(c: string, rest: seq<string>, x: string)
    requires x != c
    ensures IndexOf([c] + rest, x) == if x in rest then IndexOf(rest, x) + 1 else -1
  {
    assert ([c] + rest)[1..] == rest;
  }

  /**
   * Every discovered link contains the host, every href containing the host is
   * discovered, no link is discovered twice, and links appear in the order of
   * their first occurrence among the anchors: the list is the subsequence of
   * `hrefs` made of the first occurrence of each on-site href.
   */
  lemma DiscoverSpec(hrefs: seq<string>)
    ensures forall x :: x in Discover(hrefs) <==> x in hrefs && Contains(x, Host)
    ensures NoDuplicates(Discover(hrefs))
    ensures forall p, q :: 0 <= p < q < |Discover(hrefs)| ==>
      IndexOf(hrefs, Discover(hrefs)[p]) < IndexOf(hrefs, Discover(hrefs)[q])
  {
    var a := OnSite(hrefs);
    var r := Discover(hrefs);
    FirstsFromMembers(a, 0);
    FirstsFromOrder(a, 0);
    forall p, q | 0 <= p < q < |r|
      ensures r[p] != r[q] && IndexOf(hrefs, r[p]) < IndexOf(hrefs, r[q])
    {
      assert IndexOf(a, r[p]) < IndexOf(a, r[q]);
      assert r[p] in r && r[q] in r;
      OnSiteOrder(hrefs, r[p], r[q]);
    }
  }

  /** In a list without repeats, every element first occurs at its own index. */
  lemma DistinctIndexOf(a: seq<string>, k: nat)
    requires NoDuplicates(a) && k < |a|
    ensures IndexOf(a, a[k]) == k
  {
    var r := IndexOf(a, a[k]);
    assert a[r] == a[k];
  }

  /** The filter keeps every element from `i` on when each of them first occurs at its own index. */
  lemma {:induction false} FirstsFromDistinct(a: seq<string>, i: nat)
    requires i <= |a|
    requires forall k {:trigger IndexOf(a, a[k])} :: i <= k < |a| ==> IndexOf(a, a[k]) == k
    ensures FirstsFrom(a, i) == a[i..]
    decreases |a| - i
  {
    if i < |a| {
      FirstsFromDistinct(a, i + 1);
      assert a[i..] == [a[i]] + a[i + 1..];
    }
  }

  lemma {:induction false} OnSiteOfOnSite(a: seq<string>)
    requires forall k :: 0 <= k < |a| ==> Contains(a[k], Host)
    ensures OnSite(a) == a
  {
    if a != [] {
      OnSiteOfOnSite(a[1..]);
    }
  }

  /** Running discovery again on its own result changes nothing. */
  lemma DiscoverIdempotent(hrefs: seq<string>)
    ensures Discover(Discover(hrefs)) == Discover(hrefs)
  {
    var r := Discover(hrefs);
    DiscoverSpec(hrefs);
    OnSiteOfOnSite(r);
    forall k | 0 <= k < |r| ensures IndexOf(r, r[k]) == k {
      DistinctIndexOf(r, k);
    }
    FirstsFromDistinct(r, 0);
  }

  /** An entry page linking to A, B and A again yields [A, B]: the repeat collapses onto the first. */
  lemma DiscoverRepeated(a: string, b: string)
    requires a != b && Contains(a, Host) && Contains(b, Host)
    ensures Discover([a, b, a]) == [a, b]
  {
    var h := [a, b, a];
    OnSiteOfOnSite(h);
    assert IndexOf(h, a) == 0;
    assert IndexOf(h, b) == 1 by {
      assert h[1..] == [b, a];
    }
    assert FirstsFrom(h, 3) == [];
    assert FirstsFrom(h, 2) == [];
    assert FirstsFrom(h, 1) == [b];
  }
}
