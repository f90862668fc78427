/** The chat engine's bounded cache of sessions in front of the session store. */
module SessionCache {
  import opened Options

  const MAX_CACHED_SESSIONS := 128
  const LIST_LIMIT := 50

  datatype Session = Session(id: string, messages: seq<string>, updatedAt: int)

  /** A row of the store's session list: everything but the messages. */
  function Skeleton(s: Session): Session { s.(messages := []) }

  // ---- stable sorting of ids by a key ----

  ghost predicate Distinct(ids: seq<string>) {
    forall i, j | 0 <= i < j < |ids| :: ids[i] != ids[j]
  }

  predicate Keyed(ids: seq<string>, key: map<string, int>) {
    forall i | 0 <= i < |ids| :: ids[i] in key
  }

  ghost predicate SortedBy(ids: seq<string>, key: map<string, int>)
    requires Keyed(ids, key)
  {
    forall i, j | 0 <= i < j < |ids| :: key[ids[i]] <= key[ids[j]]
  }

  /** Inserts after everything that is not larger. */
  function Insert(ids: seq<string>, x: string, key: map<string, int>): seq<string>
    requires Keyed(ids, key) && x in key
  {
    if ids == [] then [x]
    else if key[ids[|ids| - 1]] <= key[x] then ids + [x]
    else Insert(ids[..|ids| - 1], x, key) + [ids[|ids| - 1]]
  }

  lemma {:induction false} InsertSorts(ids: seq<string>, x: string, key: map<string, int>)
    requires Keyed(ids, key) && x in key && SortedBy(ids, key)
    ensures var r := Insert(ids, x, key);
      Keyed(r, key) && SortedBy(r, key) && multiset(r) == multiset(ids) + multiset{x}
  {
    hide SortedBy;
    if ids == [] {
      assert Insert(ids, x, key) == [x];
      OneSorted(x, key);
    } else {
      var last, rest := ids[|ids| - 1], ids[..|ids| - 1];
      assert ids == rest + [last];
      LastLargest(ids, key);
      if key[last] > key[x] {
        InsertSorts(rest, x, key);
        var r := Insert(rest, x, key);
        AppendSorts(r, rest + [x], last, key);
      } else {
        AppendSorts(ids, ids, x, key);
      }
    }
  }

  lemma OneSorted(x: string, key: map<string, int>)
    requires x in key
    ensures Keyed([x], key) && SortedBy([x], key)
  {
  }

  lemma LastLargest(ids: seq<string>, key: map<string, int>)
    requires Keyed(ids, key) && SortedBy(ids, key) && ids != []
    ensures Keyed(ids[..|ids| - 1], key) && SortedBy(ids[..|ids| - 1], key)
    ensures forall i | 0 <= i < |ids| :: key[ids[i]] <= key[ids[|ids| - 1]]
  {
  }

  lemma AppendSorts(ids: seq<string>, same: seq<string>, x: string, key: map<string, int>)
    requires Keyed(ids, key) && Keyed(same, key) && x in key && SortedBy(ids, key) && multiset(ids) == multiset(same)
    requires forall i | 0 <= i < |same| :: key[same[i]] <= key[x]
    ensures Keyed(ids + [x], key) && SortedBy(ids + [x], key) && multiset(ids + [x]) == multiset(same) + multiset{x}
  {
    forall i | 0 <= i < |ids| ensures key[ids[i]] <= key[x] {
      assert ids[i] in multiset(same);
      assert ids[i] in same;
    }
  }

  function Sorted(ids: seq<string>, key: map<string, int>): (r: seq<string>)
    requires Keyed(ids, key)
    ensures Keyed(r, key) && SortedBy(r, key) && multiset(r) == multiset(ids)
  {
    if ids == [] then []
    else
      var rest := Sorted(ids[..|ids| - 1], key);
      InsertSorts(rest, ids[|ids| - 1], key);
      assert ids == ids[..|ids| - 1] + [ids[|ids| - 1]];
      Insert(rest, ids[|ids| - 1], key)
  }

  lemma {:induction false} SameMembers(a: seq<string>, b: seq<string>)
    requires multiset(a) == multiset(b)
    ensures |a| == |b| && (forall x :: x in a <==> x in b) && (Distinct(a) ==> Distinct(b))
  {
    assert |multiset(a)| == |multiset(b)|;
    forall x ensures x in a <==> x in b { assert x in multiset(a) <==> x in multiset(b); }
    if Distinct(a) {
      forall i, j | 0 <= i < j < |b| ensures b[i] != b[j] {
        CountOnce(a, b[i]);
        CountTwice(b, i, j);
      }
    }
  }

  lemma {:induction false} CountOnce(a: seq<string>, x: string)
    requires Distinct(a)
    ensures multiset(a)[x] <= 1
  {
    if a != [] {
      assert a == [a[0]] + a[1..];
      CountOnce(a[1..], x);
      assert a[0] !in a[1..];
    }
  }

  lemma CountTwice(b: seq<string>, i: nat, j: nat)
    requires i < j < |b|
    ensures b[i] == b[j] ==> multiset(b)[b[i]] >= 2
  {
    assert b == b[..i] + [b[i]] + b[i + 1..j] + [b[j]] + b[j + 1..];
  }

  /** The sort is stable: an id listed last with the largest key stays last. */
  lemma LargestLast(ids: seq<string>, key: map<string, int>)
    requires Keyed(ids, key) && ids != [] && forall i | 0 <= i < |ids| :: key[ids[i]] <= key[ids[|ids| - 1]]
    ensures var r := Sorted(ids, key); |r| == |ids| && r[|r| - 1] == ids[|ids| - 1]
  {
    var rest := Sorted(ids[..|ids| - 1], key);
    SameMembers(ids[..|ids| - 1], rest);
    SameMembers(ids, Sorted(ids, key));
    if rest != [] {
      assert rest[|rest| - 1] in rest;
    }
  }

  // ---- the engine ----

  /** The ids that remain when some are dropped, in their old order. */
  function Without(ids: seq<string>, gone: set<string>): seq<string> {
    if ids == [] then []
    else Without(ids[..|ids| - 1], gone) + (if ids[|ids| - 1] in gone then [] else [ids[|ids| - 1]])
  }

  lemma {:induction false} WithoutKeeps(ids: seq<string>, gone: set<string>)
    requires Distinct(ids)
    ensures Distinct(Without(ids, gone)) && forall x :: x in Without(ids, gone) <==> x in ids && x !in gone
  {
    if ids != [] {
      var rest, last := ids[..|ids| - 1], ids[|ids| - 1];
      assert ids == rest + [last] && last !in rest;
      WithoutKeeps(rest, gone);
    }
  }

  /** What the store's listing may return: at most fifty rows, newest first, and
      nothing newer left out. */
  ghost predicate Listing(store: map<string, Session>, ids: seq<string>) {
    && Distinct(ids) && (forall x | x in ids :: x in store)
    && |ids| == (if |store| < 50 then |store| else 50)
    && (forall i, j | 0 <= i < j < |ids| :: ids[i] in store && ids[j] in store && store[ids[i]].updatedAt >= store[ids[j]].updatedAt)
    && (forall x, y | x in ids && y in store && y !in ids :: store[y].updatedAt <= store[x].updatedAt)
  }

  lemma OrderSize(order: seq<string>, cached: map<string, Session>)
    requires Distinct(order) && forall k :: k in order <==> k in cached
    ensures |order| == |cached|
  {
    MembersSize(order);
    assert (set k | k in order) == cached.Keys;
  }

  lemma {:induction false} MembersSize(ids: seq<string>)
    requires Distinct(ids)
    ensures |set k | k in ids| == |ids|
  {
    if ids == [] {
      assert (set k | k in ids) == {};
    } else {
      var rest, last := ids[..|ids| - 1], ids[|ids| - 1];
      MembersSize(rest);
      OneMoreMember(rest, last);
      assert ids == rest + [last];
      assert last !in rest;
    }
  }

  lemma OneMoreMember(rest: seq<string>, last: string)
    ensures (set k | k in rest + [last]) == (set k | k in rest) + {last}
  {
  }

  lemma GoneSize(ids: seq<string>, n: nat)
    requires Distinct(ids) && n <= |ids|
    ensures |set i | 0 <= i < n :: ids[i]| == n
  {
    MembersSize(ids[..n]);
    assert (set k | k in ids[..n]) == (set i | 0 <= i < n :: ids[i]);
  }

  function Stamps(cached: map<string, Session>): map<string, int> {
    map k | k in cached :: cached[k].updatedAt
  }

  /** The cache is a dictionary: keys in the order they were first set, and every
      session under its own id. */
  ghost predicate Filed(order: seq<string>, cached: map<string, Session>) {
    && Distinct(order) && (forall k :: k in order <==> k in cached)
    && (forall k | k in cached :: cached[k].id == k)
  }

  /** Every cached session is its stored copy. */
  ghost predicate Mirrors(cached: map<string, Session>, store: map<string, Session>) {
    forall k | k in cached :: k in store && store[k] == cached[k]
  }

  /** What trimming leaves of a cache: at most 128 of its sessions, none of them older
      than one that went, and the latest entry among them if none is newer. */
  ghost predicate Trimmed(order: seq<string>, was: map<string, Session>, cached: map<string, Session>) {
    && |cached| == (if |was| <= 128 then |was| else 128)
    && (forall k | k in cached :: k in was && cached[k] == was[k])
    && (|was| <= 128 ==> cached == was)
    && (forall gone, kept | gone in was && gone !in cached && kept in cached ::
          was[gone].updatedAt <= was[kept].updatedAt)
    && (forall last | order != [] && last == order[|order| - 1] && last in was
          && (forall k | k in was :: was[k].updatedAt <= was[last].updatedAt) :: last in cached)
  }

  /** These n sessions are no newer than the others, and the latest entry is not among
      them if none is newer. */
  ghost predicate AreOldest(order: seq<string>, cached: map<string, Session>, n: nat, gone: set<string>) {
    && gone <= cached.Keys && |gone| == n
    && (forall g, k | g in gone && k in cached && k !in gone :: cached[g].updatedAt <= cached[k].updatedAt)
    && (forall last | order != [] && last == order[|order| - 1] && last in cached
          && (forall k | k in cached :: cached[k].updatedAt <= cached[last].updatedAt) :: last !in gone)
  }

  /** The sessions to drop: the front of the cache sorted by age. */
  function Oldest(order: seq<string>, cached: map<string, Session>): (gone: set<string>)
    requires Filed(order, cached) && |cached| > MAX_CACHED_SESSIONS
    ensures AreOldest(order, cached, |cached| - MAX_CACHED_SESSIONS, gone)
  {
    hide *;
    OldestFirst(order, cached, |cached| - MAX_CACHED_SESSIONS);
    SortedFront(order, cached, |cached| - MAX_CACHED_SESSIONS)
  }

  function SortedFront(order: seq<string>, cached: map<string, Session>, n: nat): set<string>
    requires Keyed(order, Stamps(cached)) && n <= |Sorted(order, Stamps(cached))|
  {
    set i | 0 <= i < n :: Sorted(order, Stamps(cached))[i]
  }

  lemma OldestFirst(order: seq<string>, cached: map<string, Session>, n: nat)
    requires Filed(order, cached) && n < |cached|
    ensures Keyed(order, Stamps(cached)) && |Sorted(order, Stamps(cached))| == |cached|
    ensures AreOldest(order, cached, n, SortedFront(order, cached, n))
  {
    hide Sorted, Insert;
    var key := Stamps(cached);
    assert Keyed(order, key) by { assert forall i | 0 <= i < |order| :: order[i] in order; }
    var sorted := Sorted(order, key);
    SameMembers(order, sorted);
    OrderSize(order, cached);
    GoneSize(sorted, n);
    var gone := SortedFront(order, cached, n);
    assert gone == set i | 0 <= i < n :: sorted[i];
    forall g, k | g in gone && k in cached && k !in gone ensures cached[g].updatedAt <= cached[k].updatedAt {
      var i :| 0 <= i < n && sorted[i] == g;
      var j :| 0 <= j < |sorted| && sorted[j] == k;
      assert key[sorted[i]] <= key[sorted[j]];
    }
    if order != [] && forall k | k in cached :: cached[k].updatedAt <= cached[order[|order| - 1]].updatedAt {
      LargestLast(order, key);
    }
  }

  /** Dropping the oldest down to 128 files and trims the cache. */
  lemma TrimmingTrims(order: seq<string>, cached: map<string, Session>)
    requires Filed(order, cached) && |cached| > MAX_CACHED_SESSIONS
    ensures var gone := Oldest(order, cached);
      Filed(Without(order, gone), cached - gone) && Trimmed(order, cached, cached - gone)
  {
    hide Sorted, Insert, Without, SortedBy, Oldest, Distinct, SortedFront;
    var gone := Oldest(order, cached);
    WithoutKeeps(order, gone);
    assert (cached - gone).Keys == cached.Keys - gone;
  }

  lemma NothingTrimmed(order: seq<string>, cached: map<string, Session>)
    requires Filed(order, cached) && |cached| <= MAX_CACHED_SESSIONS
    ensures Trimmed(order, cached, cached)
  {
  }

  lemma TrimmedMirrors(order: seq<string>, was: map<string, Session>, cached: map<string, Session>, store: map<string, Session>)
    requires Trimmed(order, was, cached) && Mirrors(was, store)
    ensures Mirrors(cached, store)
  {
  }

  /** A session cached last, with the latest time, survives the trimming. */
  lemma NewestSurvives(order: seq<string>, was: map<string, Session>, s: Session, kept: map<string, Session>)
    requires Filed(order, was) && s.id !in was && Trimmed(order + [s.id], was[s.id := s], kept)
    ensures |kept| <= MAX_CACHED_SESSIONS
    ensures forall k | k in kept :: if k == s.id then kept[k] == s else k in was && kept[k] == was[k]
    ensures (forall k | k in was :: was[k].updatedAt <= s.updatedAt) ==> s.id in kept
    ensures forall gone, k | gone in was && gone !in kept && k in kept && k in was :: was[gone].updatedAt <= was[k].updatedAt
  {
    hide Distinct;
    var all := was[s.id := s];
    forall gone, k | gone in was && gone !in kept && k in kept && k in was ensures was[gone].updatedAt <= was[k].updatedAt {
      assert all[gone] == was[gone] && all[k] == was[k];
    }
  }

  class ChatEngine {
    var order: seq<string>
    var cached: map<string, Session>
    var store: map<string, Session>

    ghost predicate Valid()
      reads this
    {
      Filed(order, cached) && forall k | k in store :: store[k].id == k
    }

    ghost predicate Transparent()
      reads this
    {
      Mirrors(cached, store)
    }

    constructor ()
      ensures Valid() && Transparent() && cached == map[] && store == map[]
    {
      order, cached, store := [], map[], map[];
    }

    /** Drops the oldest sessions until at most 128 are left. */
    method EvictSessions()
      requires Valid()
      modifies this`order, this`cached
      ensures Valid() && Trimmed(old(order), old(cached), cached)
      ensures old(Transparent()) ==> Transparent()
    {
      hide Filed, Mirrors, Trimmed, Oldest, Without;
      ghost var before, was := order, cached;
      if |cached| <= MAX_CACHED_SESSIONS {
        NothingTrimmed(order, cached);
        return;
      }
      var gone := Oldest(order, cached);
      TrimmingTrims(order, cached);
      order := Without(order, gone);
      cached := cached - gone;
      if Mirrors(was, store) { TrimmedMirrors(before, was, cached, store); }
    }

    /** From the cache, else from the store; what is loaded is cached first. */
    method GetSession(id: string) returns (r: Option<Session>)
      requires Valid()
      modifies this`order, this`cached
      ensures Valid()
      ensures r == (if id in old(cached) then Some(old(cached)[id]) else if id in store then Some(store[id]) else None)
      ensures old(Transparent()) ==> Transparent() && r == (if id in store then Some(store[id]) else None)
      ensures id in old(cached) || id !in store ==> cached == old(cached) && order == old(order)
      ensures id !in old(cached) && id in store ==>
        |cached| <= 128 && Trimmed(old(order) + [id], old(cached)[id := store[id]], cached)
      ensures forall k | k in cached :: k == id || (k in old(cached) && cached[k] == old(cached)[k])
      ensures id in cached && id !in old(cached) ==> id in store && cached[id] == store[id]
    {
      if id in cached { return Some(cached[id]); }
      if id !in store {
        return None;
      }
      var loaded := store[id];
      Put(loaded);
      EvictSessions();
      return Some(loaded);
    }

    method Put(s: Session)
      requires Valid()
      modifies this`order, this`cached
      ensures Valid() && cached == old(cached)[s.id := s]
      ensures order == if s.id in old(cached) then old(order) else old(order) + [s.id]
    {
      if s.id !in cached { order := order + [s.id]; }
      cached := cached[s.id := s];
    }

    /** Saving stamps the session object, and so its cache entry, with the time. */
    method Persist(s: Session, now: int)
      requires Valid()
      modifies this`cached, this`store
      ensures Valid()
      ensures store == old(store)[s.id := s.(updatedAt := now)]
      ensures cached == if s.id in old(cached) then old(cached)[s.id := s.(updatedAt := now)] else old(cached)
    {
      store := store[s.id := s.(updatedAt := now)];
      if s.id in cached { cached := cached[s.id := s.(updatedAt := now)]; }
    }

    /** A new session: cached, then the cache trimmed, then saved. It survives the
        trimming unless the clock has run backwards. */
    method CreateSession(id: string, created: int, saved: int)
      requires Valid() && id !in cached && id !in store
      modifies this
      ensures Valid() && (old(Transparent()) ==> Transparent())
      ensures store == old(store)[id := Session(id, [], saved)]
      ensures |cached| <= 128
      ensures (forall k | k in old(cached) :: old(cached)[k].updatedAt <= created) ==> id in cached
      ensures forall gone, kept | gone in old(cached) && gone !in cached && kept in cached && kept in old(cached) ::
        old(cached)[gone].updatedAt <= old(cached)[kept].updatedAt
    {
      hide Distinct, Trimmed, Sorted, Insert;
      var s := Session(id, [], created);
      Put(s);
      EvictSessions();
      NewestSurvives(old(order), old(cached), s, cached);
      ghost var kept := cached;
      Persist(s, saved);
      assert cached.Keys == kept.Keys;
    }

    /** Any operation that rewrites a session's messages and saves it: `send`,
        `edit` and `switch_branch`. */
    method Rewrite(id: string, change: seq<string> -> seq<string>, now: int) returns (done: bool)
      requires Valid()
      modifies this
      ensures Valid() && (old(Transparent()) ==> Transparent())
      ensures done == (id in old(cached) || id in old(store))
      ensures done ==> store == old(store)[id := Session(id,
        change(if id in old(cached) then old(cached)[id].messages else old(store)[id].messages), now)]
      ensures !done ==> unchanged(this)
    {
      var found := GetSession(id);
      if found.None? { return false; }
      var s := found.value;
      Persist(s.(messages := change(s.messages)), now);
      return true;
    }

    /** `branch` caches its new session without trimming. */
    method AddBranch(id: string, messages: seq<string>, now: int)
      requires Valid() && id !in cached && id !in store
      modifies this
      ensures Valid() && (old(Transparent()) ==> Transparent())
      ensures store == old(store)[id := Session(id, messages, now)] && id in cached
    {
      var s := Session(id, messages, now);
      Put(s);
      Persist(s, now);
    }

    method DeleteSession(id: string) returns (existed: bool)
      requires Valid()
      modifies this
      ensures Valid() && (old(Transparent()) ==> Transparent())
      ensures existed == (id in old(cached)) && store == old(store) - {id} && id !in cached
    {
      WithoutKeeps(order, {id});
      existed := id in cached;
      order, cached, store := Without(order, {id}), cached - {id}, store - {id};
    }

    /** Caches the listed rows that are not cached, as they come: without messages. */
    method CacheListed(listed: seq<string>)
      requires Valid() && forall x | x in listed :: x in store
      modifies this`order, this`cached
      ensures Valid() && Grown(old(cached), store, listed, cached)
    {
      hide Distinct;
      for i := 0 to |listed|
        invariant Valid() && Grown(old(cached), store, listed[..i], cached)
      {
        var id := listed[i];
        ghost var before := cached;
        if id !in cached { Put(Skeleton(store[id])); }
        GrowsBy(old(cached), store, listed[..i], before, id, cached);
        assert listed[..i + 1] == listed[..i] + [id];
      }
      assert listed[..|listed|] == listed;
    }

    /** Lists what is cached together with what the store lists, newest first. Rows
        that were not cached are cached as they come, without their messages: the
        cache stays transparent exactly when no such row has any. */
    method ListSessions(listed: seq<string>) returns (r: seq<string>)
      requires Valid() && Listing(store, listed)
      modifies this`order, this`cached
      ensures Valid() && Grown(old(cached), store, listed, cached)
      ensures Distinct(r) && (forall k :: k in r <==> k in cached) && NewestFirst(r, cached)
      ensures |store| <= 50 ==> forall k | k in store :: k in r
      ensures old(Transparent()) ==>
        (Transparent() <==> forall k | k in listed && k !in old(cached) :: store[k].messages == [])
    {
      hide Distinct, NewestFirst, Sorted, Insert;
      CacheListed(listed);
      r := SortNewest(order, cached);
      if old(Transparent()) { GrownMirrors(old(cached), store, listed, cached); }
      if |store| <= LIST_LIMIT { ListsAll(store, listed); }
    }
  }

  ghost predicate NewestFirst(r: seq<string>, cached: map<string, Session>) {
    forall i, j | 0 <= i < j < |r| :: r[i] in cached && r[j] in cached && cached[r[i]].updatedAt >= cached[r[j]].updatedAt
  }

  /** The cache with the listed rows added as skeletons where they were missing. */
  ghost predicate Grown(was: map<string, Session>, store: map<string, Session>, listed: seq<string>, cached: map<string, Session>) {
    && (forall k :: k in cached <==> k in was || k in listed)
    && (forall k | k in was && k in cached :: cached[k] == was[k])
    && (forall k | k in cached && k !in was :: k in store && cached[k] == Skeleton(store[k]))
  }

  lemma GrowsBy(was: map<string, Session>, store: map<string, Session>, listed: seq<string>,
                before: map<string, Session>, id: string, after: map<string, Session>)
    requires Grown(was, store, listed, before) && id in store && store[id].id == id
    requires after == if id in before then before else before[id := Skeleton(store[id])]
    ensures Grown(was, store, listed + [id], after)
  {
  }

  lemma GrownMirrors(was: map<string, Session>, store: map<string, Session>, listed: seq<string>, cached: map<string, Session>)
    requires Grown(was, store, listed, cached) && forall x | x in listed :: x in store
    requires Mirrors(was, store)
    ensures Mirrors(cached, store) <==> forall k | k in listed && k !in was :: store[k].messages == []
  {
    if forall k | k in listed && k !in was :: store[k].messages == [] {
    } else {
      var k :| k in listed && k !in was && store[k].messages != [];
      assert cached[k] != store[k];
    }
  }

  /** Sorting in reverse keeps the order of equals, as sorting by the negated time does. */
  function Ages(cached: map<string, Session>): map<string, int> {
    map k | k in cached :: -cached[k].updatedAt
  }

  lemma AgesSort(order: seq<string>, cached: map<string, Session>)
    requires Filed(order, cached)
    ensures Keyed(order, Ages(cached))
    ensures var r := Sorted(order, Ages(cached)); Distinct(r) && (forall k :: k in r <==> k in cached) && NewestFirst(r, cached)
  {
    hide Sorted, Insert;
    var key := Ages(cached);
    assert Keyed(order, key) by { assert forall i | 0 <= i < |order| :: order[i] in order; }
    var r := Sorted(order, key);
    SameMembers(order, r);
    SortedAges(r, cached);
  }

  lemma SortedAges(r: seq<string>, cached: map<string, Session>)
    requires Keyed(r, Ages(cached)) && SortedBy(r, Ages(cached))
    ensures NewestFirst(r, cached)
  {
    forall i, j | 0 <= i < j < |r| ensures r[i] in cached && r[j] in cached && cached[r[i]].updatedAt >= cached[r[j]].updatedAt {
      assert Ages(cached)[r[i]] <= Ages(cached)[r[j]];
    }
  }

  function SortNewest(order: seq<string>, cached: map<string, Session>): (r: seq<string>)
    requires Filed(order, cached)
    ensures Distinct(r) && (forall k :: k in r <==> k in cached) && NewestFirst(r, cached)
  {
    hide Sorted, Insert, Ages, Keyed, SortedBy, NewestFirst, Distinct, Filed;
    AgesSort(order, cached);
    Sorted(order, Ages(cached))
  }

  lemma ListsAll(store: map<string, Session>, listed: seq<string>)
    requires Listing(store, listed) && |store| <= LIST_LIMIT
    ensures forall k | k in store :: k in listed
  {
    MembersSize(listed);
    var all := set k | k in listed;
    assert all <= store.Keys && |store.Keys - all| == |store.Keys| - |all|;
    assert store.Keys - all == {};
  }

  /** After a listing, the next message to a session that was not cached replaces
      its stored history. */
  method ListingThenSend(engine: ChatEngine, listed: seq<string>, id: string, text: string, now: int)
    requires engine.Valid() && engine.Transparent() && Listing(engine.store, listed)
    requires id in listed && id !in engine.cached
    modifies engine
    ensures id in engine.store && engine.store[id].messages == [text]
  {
    var _ := engine.ListSessions(listed);
    var _ := engine.Rewrite(id, (ms: seq<string>) => ms + [text], now);
  }
}
