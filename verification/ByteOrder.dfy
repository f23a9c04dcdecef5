/**
 The order of byte strings (bytes.Compare, sort.Strings, bbolt's key order) and sets listed in it.
 */
module ByteOrder {
  import opened ByteStrings

  predicate Less(a: seq<byte>, b: seq<byte>) {
    b != [] && (a == [] || a[0] < b[0] || (a[0] == b[0] && Less(a[1..], b[1..])))
  }

  lemma {:induction false} LessIsTotal(a: seq<byte>, b: seq<byte>)
    ensures a == b || Less(a, b) || Less(b, a)
    ensures !(Less(a, b) && Less(b, a)) && !Less(a, a)
  {
    if a != [] && b != [] {
      LessIsTotal(a[1..], b[1..]);
      assert a == [a[0]] + a[1..] && b == [b[0]] + b[1..];
    }
    Irreflexive(a);
  }

  lemma {:induction false} Irreflexive(a: seq<byte>)
    ensures !Less(a, a)
  {
    if a != [] {
      Irreflexive(a[1..]);
    }
  }

  lemma {:induction false} LessIsTransitive(a: seq<byte>, b: seq<byte>, c: seq<byte>)
    requires Less(a, b) && Less(b, c)
    ensures Less(a, c)
  {
    if a != [] && a[0] == b[0] == c[0] {
      LessIsTransitive(a[1..], b[1..], c[1..]);
    }
  }

  /** Smaller at the first difference, or a proper prefix. */
  ghost predicate Before(a: seq<byte>, b: seq<byte>) {
    exists n | 0 <= n <= |a| && n < |b| :: a[..n] == b[..n] && (n == |a| || a[n] < b[n])
  }

  lemma {:induction false} LessIff(a: seq<byte>, b: seq<byte>)
    ensures Less(a, b) <==> Before(a, b)
  {
    if Less(a, b) {
      if a == [] || a[0] < b[0] {
        assert a[..0] == b[..0];
      } else {
        LessIff(a[1..], b[1..]);
        var n :| 0 <= n <= |a[1..]| && n < |b[1..]| && a[1..][..n] == b[1..][..n]
                 && (n == |a[1..]| || a[1..][n] < b[1..][n]);
        assert a[..n + 1] == [a[0]] + a[1..][..n] && b[..n + 1] == [b[0]] + b[1..][..n];
      }
    }
    if n :| 0 <= n <= |a| && n < |b| && a[..n] == b[..n] && (n == |a| || a[n] < b[n]) {
      if n > 0 {
        assert a[0] == a[..n][0] == b[..n][0] == b[0];
        assert a[1..][..n - 1] == a[..n][1..] == b[..n][1..] == b[1..][..n - 1];
        assert Before(a[1..], b[1..]);
        LessIff(a[1..], b[1..]);
      }
    }
  }

  // ---------------------------------------------------------------- prefixes

  predicate HasPrefix(s: seq<byte>, p: seq<byte>) {
    |p| <= |s| && s[..|p|] == p
  }

  lemma PrefixTail(s: seq<byte>, p: seq<byte>)
    requires s != [] && p != []
    ensures HasPrefix(s, p) <==> s[0] == p[0] && HasPrefix(s[1..], p[1..])
  {
    if |p| <= |s| {
      assert s[..|p|] == [s[0]] + s[1..][..|p| - 1];
      assert p == [p[0]] + p[1..];
    }
  }

  /** A string is not below its prefixes. */
  lemma {:induction false} PrefixIsNotAbove(s: seq<byte>, p: seq<byte>)
    requires HasPrefix(s, p)
    ensures !Less(s, p)
  {
    if p != [] {
      PrefixTail(s, p);
      PrefixIsNotAbove(s[1..], p[1..]);
    }
  }

  /** The strings with one prefix lie together, directly from the prefix on. */
  lemma {:induction false} PrefixIsContiguous(p: seq<byte>, a: seq<byte>, b: seq<byte>)
    requires !Less(a, p) && !Less(b, a) && HasPrefix(b, p)
    ensures HasPrefix(a, p)
  {
    if p != [] {
      PrefixTail(b, p);
      assert a != [];
      PrefixTail(a, p);
      assert a[0] == p[0] == b[0];
      PrefixIsContiguous(p[1..], a[1..], b[1..]);
    }
  }

  // ---------------------------------------------------------------- sorted listings

  predicate Ascending(xs: seq<seq<byte>>) {
    forall i, j | 0 <= i < j < |xs| :: Less(xs[i], xs[j])
  }

  ghost predicate Lists(xs: seq<seq<byte>>, s: set<seq<byte>>) {
    Ascending(xs) && forall x :: x in xs <==> x in s
  }

  lemma HeadIsLeast(xs: seq<seq<byte>>, s: set<seq<byte>>, x: seq<byte>)
    requires Lists(xs, s) && x in s
    ensures xs != [] && xs[0] in s && (x == xs[0] || Less(xs[0], x))
  {
    var i :| 0 <= i < |xs| && xs[i] == x;
    assert xs[0] in xs;
  }

  lemma TailLists(xs: seq<seq<byte>>, s: set<seq<byte>>)
    requires Lists(xs, s) && xs != []
    ensures Lists(xs[1..], s - {xs[0]})
  {
    forall i | 0 < i < |xs|
      ensures xs[i] != xs[0]
    {
      LessIsTotal(xs[0], xs[i]);
    }
    assert xs == [xs[0]] + xs[1..];
  }

  /** A finite set has one ascending listing, whatever order it was collected in. */
  lemma {:induction false} ListingIsUnique(xs: seq<seq<byte>>, ys: seq<seq<byte>>, s: set<seq<byte>>)
    requires Lists(xs, s) && Lists(ys, s)
    ensures xs == ys
    decreases |xs|
  {
    hide Lists;
    EmptyListing(xs, s);
    EmptyListing(ys, s);
    if s != {} {
      ListedHead(xs, s);
      ListedHead(ys, s);
      HeadIsLeast(xs, s, ys[0]);
      HeadIsLeast(ys, s, xs[0]);
      LessIsTotal(xs[0], ys[0]);
      TailLists(xs, s);
      TailLists(ys, s);
      ListingIsUnique(xs[1..], ys[1..], s - {xs[0]});
      assert xs == [xs[0]] + xs[1..] && ys == [ys[0]] + ys[1..];
    }
  }

  lemma ListedHead(xs: seq<seq<byte>>, s: set<seq<byte>>)
    requires Lists(xs, s) && xs != []
    ensures xs[0] in s
  {
    assert xs[0] in xs;
  }

  lemma EmptyListing(xs: seq<seq<byte>>, s: set<seq<byte>>)
    requires Lists(xs, s)
    ensures xs == [] <==> s == {}
  {
    if xs != [] {
      assert xs[0] in xs;
    }
  }

  /** A listing is as long as the set is large. */
  lemma {:induction false} ListedCount(xs: seq<seq<byte>>, s: set<seq<byte>>)
    requires Lists(xs, s)
    ensures |xs| == |s|
    decreases |xs|
  {
    hide Lists;
    EmptyListing(xs, s);
    if xs != [] {
      ListedHead(xs, s);
      TailLists(xs, s);
      ListedCount(xs[1..], s - {xs[0]});
    }
  }

  /** Where x goes in an ascending list. */
  method Place(xs: seq<seq<byte>>, x: seq<byte>) returns (i: nat)
    requires Ascending(xs) && x !in xs
    ensures i <= |xs| && (forall k | 0 <= k < i :: Less(xs[k], x)) && (forall k | i <= k < |xs| :: Less(x, xs[k]))
  {
    i := 0;
    while i < |xs| && Less(xs[i], x)
      invariant i <= |xs| && forall k | 0 <= k < i :: Less(xs[k], x)
    {
      i := i + 1;
    }
    forall k | i <= k < |xs|
      ensures Less(x, xs[k])
    {
      LessIsTotal(xs[i], x);
      if k > i {
        LessIsTransitive(x, xs[i], xs[k]);
      }
    }
  }

  lemma PlacedAscends(xs: seq<seq<byte>>, x: seq<byte>, i: nat)
    requires Ascending(xs) && i <= |xs| && (forall k | 0 <= k < i :: Less(xs[k], x))
             && (forall k | i <= k < |xs| :: Less(x, xs[k]))
    ensures Ascending(xs[..i] + [x] + xs[i..])
  {
    hide Less;
  }

  /** Sorts the elements of a set: keys collected in any order, then put in byte order. */
  method SortSet(s: set<seq<byte>>) returns (xs: seq<seq<byte>>)
    ensures Lists(xs, s)
  {
    hide Less;
    xs := [];
    var todo := s;
    while todo != {}
      invariant todo <= s && Ascending(xs) && forall x :: x in xs <==> x in s - todo
    {
      var x :| x in todo;
      var i := Place(xs, x);
      PlacedAscends(xs, x, i);
      ghost var older := xs;
      xs := xs[..i] + [x] + xs[i..];
      assert forall y :: y in xs <==> y in older || y == x by {
        assert older == older[..i] + older[i..];
      }
      todo := todo - {x};
    }
  }
}
