/** Reports over all artifacts: pages of the sorted list, and the token budget. */
module Listings {

  // ---- pages ----

  /** `s[lo:hi]`: a negative bound counts from the end, and bounds past an end stop there. */
  function Slice<T>(s: seq<T>, lo: int, hi: int): seq<T> {
    var l, h := Bound(|s|, lo), Bound(|s|, hi);
    if l <= h then s[l..h] else []
  }

  function Bound(n: nat, i: int): (r: nat)
    ensures r <= n
  {
    var j := if i < 0 then n + i else i;
    if j < 0 then 0 else if j > n then n else j
  }

  function Page<T>(items: seq<T>, page: int, limit: int): seq<T> {
    Slice(items, (page - 1) * limit, (page - 1) * limit + limit)
  }

  function TotalPages(total: nat, limit: int): nat {
    if limit > 0 then (total + limit - 1) / limit else 0
  }

  /** The first n pages, one after the other. */
  function Pages<T>(items: seq<T>, limit: int, n: nat): seq<T> {
    if n == 0 then [] else Pages(items, limit, n - 1) + Page(items, n, limit)
  }

  lemma SliceInside<T>(s: seq<T>, lo: nat, width: nat)
    requires width > 0
    ensures Slice(s, lo, lo + width) == if lo >= |s| then [] else s[lo..if lo + width < |s| then lo + width else |s|]
  {
  }

  lemma SliceFromEnd<T>(s: seq<T>, back: nat, width: nat)
    requires width > 0
    ensures Slice(s, -(back as int) - width, -(back as int)) != [] <==> 0 < back < |s|
  {
  }

  lemma {:induction false} PagesArePrefix<T>(items: seq<T>, limit: int, n: nat)
    requires limit > 0
    ensures Pages(items, limit, n) == items[..if n * limit < |items| then n * limit else |items|]
  {
    hide Slice;
    if n > 0 {
      PagesArePrefix(items, limit, n - 1);
      var start := (n - 1) * limit;
      assert start + limit == n * limit && 0 <= start;
      SliceInside(items, start, limit);
    }
  }

  lemma LastPage(total: nat, limit: int, n: nat)
    requires limit > 0
    ensures n * limit < total <==> n < TotalPages(total, limit)
  {
    var q, r := (total + limit - 1) / limit, (total + limit - 1) % limit;
    assert total + limit - 1 == q * limit + r;
    if n < q {
      assert (n + 1) * limit <= q * limit;
    } else {
      assert q * limit <= n * limit;
    }
  }

  /** Turning all pages shows every item once, in order. */
  lemma PagesCover<T>(items: seq<T>, limit: int)
    requires limit > 0
    ensures Pages(items, limit, TotalPages(|items|, limit)) == items
  {
    hide TotalPages, Pages;
    var n := TotalPages(|items|, limit);
    PagesArePrefix(items, limit, n);
    LastPage(|items|, limit, n);
  }

  /** A page holds something exactly when it is one of these or, as a page number below
      one is not refused but counts from the end, when the list is long enough. */
  lemma PageHoldsIff<T>(items: seq<T>, limit: int, page: int)
    requires limit > 0
    ensures page >= 1 ==> (Page(items, page, limit) != [] <==> page <= TotalPages(|items|, limit))
    ensures page < 1 ==> (Page(items, page, limit) != [] <==> page < 0 && |items| > -page * limit)
  {
    hide Slice, TotalPages;
    var start := (page - 1) * limit;
    if page >= 1 {
      LastPage(|items|, limit, page - 1);
      assert start >= 0;
      SliceInside(items, start, limit);
    } else {
      var back := -page * limit;
      assert start == -back - limit && back >= 0 && (page < 0 ==> back > 0);
      SliceFromEnd(items, back, limit);
    }
  }

  // ---- the token budget ----

  datatype Artifact = Artifact(kind: string, content: string)

  function Tokens(a: Artifact): nat { |a.content| / 4 }

  function Total(items: seq<Artifact>): nat {
    if items == [] then 0 else Total(items[..|items| - 1]) + Tokens(items[|items| - 1])
  }

  function OfKind(items: seq<Artifact>, kind: string): seq<Artifact> {
    if items == [] then []
    else OfKind(items[..|items| - 1], kind) + (if items[|items| - 1].kind == kind then [items[|items| - 1]] else [])
  }

  ghost function Sum(kinds: set<string>, counts: map<string, nat>): nat
    requires kinds <= counts.Keys
    decreases |kinds|
  {
    if kinds == {} then 0
    else
      var k :| k in kinds;
      counts[k] + Sum(kinds - {k}, counts)
  }

  /** The sum does not depend on the order in which the kinds are taken. */
  lemma {:induction false} SumWithout(kinds: set<string>, counts: map<string, nat>, k: string)
    requires k in kinds && kinds <= counts.Keys
    ensures Sum(kinds, counts) == counts[k] + Sum(kinds - {k}, counts)
    decreases |kinds|
  {
    var first :| first in kinds && Sum(kinds, counts) == counts[first] + Sum(kinds - {first}, counts);
    if first != k {
      SumWithout(kinds - {first}, counts, k);
      SumWithout(kinds - {k}, counts, first);
      assert kinds - {first} - {k} == kinds - {k} - {first};
    }
  }

  lemma {:induction false} SumSame(kinds: set<string>, a: map<string, nat>, b: map<string, nat>)
    requires kinds <= a.Keys && kinds <= b.Keys && forall k | k in kinds :: a[k] == b[k]
    ensures Sum(kinds, a) == Sum(kinds, b)
    decreases |kinds|
  {
    if kinds != {} {
      var k :| k in kinds;
      SumWithout(kinds, a, k);
      SumWithout(kinds, b, k);
      SumSame(kinds - {k}, a, b);
    }
  }

  lemma CountOneMore(counts: map<string, nat>, kind: string, more: nat)
    ensures var next := counts[kind := (if kind in counts then counts[kind] else 0) + more];
      Sum(next.Keys, next) == Sum(counts.Keys, counts) + more
  {
    var next := counts[kind := (if kind in counts then counts[kind] else 0) + more];
    var others := next.Keys - {kind};
    SumWithout(next.Keys, next, kind);
    SumSame(others, next, counts);
    if kind in counts {
      SumWithout(counts.Keys, counts, kind);
      assert counts.Keys - {kind} == others;
    } else {
      assert counts.Keys == others;
    }
  }

  /** Each kind that occurs has its tokens counted. */
  ghost predicate Counted(items: seq<Artifact>, byKind: map<string, nat>) {
    && (forall k :: k in byKind <==> OfKind(items, k) != [])
    && (forall k | k in byKind :: byKind[k] == Total(OfKind(items, k)))
  }

  lemma CountedMore(items: seq<Artifact>, byKind: map<string, nat>, a: Artifact)
    requires Counted(items, byKind)
    ensures Counted(items + [a], byKind[a.kind := (if a.kind in byKind then byKind[a.kind] else 0) + Tokens(a)])
  {
    hide OfKind, Total;
    var next := byKind[a.kind := (if a.kind in byKind then byKind[a.kind] else 0) + Tokens(a)];
    NothingCounted();
    TotalMore(OfKind(items, a.kind), a);
    OfKindMore(items, a, a.kind);
    forall k ensures k in next <==> OfKind(items + [a], k) != [] { OfKindMore(items, a, k); }
    forall k | k in next ensures next[k] == Total(OfKind(items + [a], k)) { OfKindMore(items, a, k); }
  }

  lemma OfKindMore(items: seq<Artifact>, a: Artifact, kind: string)
    ensures OfKind(items + [a], kind) == if a.kind == kind then OfKind(items, kind) + [a] else OfKind(items, kind)
  {
    assert (items + [a])[..|items|] == items;
  }

  lemma TotalMore(items: seq<Artifact>, a: Artifact)
    ensures Total(items + [a]) == Total(items) + Tokens(a)
  {
    assert (items + [a])[..|items|] == items;
  }

  /** Totals add up, so a total is that of its artifacts one by one. */
  lemma {:induction false} TotalAdds(a: seq<Artifact>, b: seq<Artifact>)
    ensures Total(a + b) == Total(a) + Total(b)
    ensures forall x: Artifact :: 4 * Total([x]) <= |x.content| < 4 * Total([x]) + 4
  {
    forall x: Artifact ensures Total([x]) == Tokens(x) { assert [x][..0] == []; }
    if b == [] {
      assert a + b == a;
    } else {
      var n := |b| - 1;
      assert (a + b)[..|a + b| - 1] == a + b[..n];
      TotalAdds(a, b[..n]);
    }
  }

  /** The budget of the artifacts: the tokens of each kind, which add up to the total. */
  method ContextBudget(items: seq<Artifact>) returns (total: nat, byKind: map<string, nat>)
    ensures total == Total(items) == Sum(byKind.Keys, byKind) && Counted(items, byKind)
  {
    hide Total, Sum, OfKind, Counted;
    total, byKind := 0, map[];
    NothingCounted();
    for i := 0 to |items|
      invariant total == Total(items[..i]) == Sum(byKind.Keys, byKind) && Counted(items[..i], byKind)
    {
      var a := items[i];
      assert items[..i + 1] == items[..i] + [a];
      CountOneMore(byKind, a.kind, Tokens(a));
      CountedMore(items[..i], byKind, a);
      TotalMore(items[..i], a);
      total := total + Tokens(a);
      byKind := byKind[a.kind := (if a.kind in byKind then byKind[a.kind] else 0) + Tokens(a)];
    }
    assert items[..|items|] == items;
  }

  lemma NothingCounted()
    ensures Total([]) == 0 && Counted([], map[])
    ensures var none: map<string, nat> := map[]; Sum(none.Keys, none) == 0
  {
    var none: map<string, nat> := map[];
    assert none.Keys == {};
  }
}
