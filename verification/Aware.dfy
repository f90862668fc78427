/** The three-tier file watcher: a debounce window, a bounded cache of syntax-tree
    hashes, and a gate that judges what is left. */
module Aware {
  datatype FileEvent = FileEvent(path: string, kind: string, stamp: int)

  // ---- tier 1 ----

  /** Emitted arrivals of one path are in order and none is emitted twice. */
  ghost predicate InOrder(arrivals: seq<FileEvent>, emitted: seq<nat>) {
    && (forall i | 0 <= i < |emitted| :: emitted[i] < |arrivals|)
    && (forall i, j | 0 <= i < j < |emitted| ::
          arrivals[emitted[i]].path == arrivals[emitted[j]].path ==> emitted[i] < emitted[j])
  }

  /** What waits is an arrival of its path, later than all that was emitted for it. */
  ghost predicate Waits(arrivals: seq<FileEvent>, emitted: seq<nat>, waiting: map<string, nat>, pending: map<string, FileEvent>) {
    && waiting.Keys == pending.Keys
    && (forall p | p in waiting :: waiting[p] < |arrivals| && arrivals[waiting[p]] == pending[p] && pending[p].path == p)
    && (forall p, i | p in waiting && 0 <= i < |emitted| && emitted[i] < |arrivals| && arrivals[emitted[i]].path == p :: emitted[i] < waiting[p])
  }

  ghost predicate LatestOf(arrivals: seq<FileEvent>, n: nat) {
    n < |arrivals| && forall m | n < m < |arrivals| :: arrivals[m].path != arrivals[n].path
  }

  /** The latest arrival of every path was emitted or is waiting. */
  ghost predicate NothingLost(arrivals: seq<FileEvent>, emitted: seq<nat>, waiting: map<string, nat>) {
    forall n: nat | LatestOf(arrivals, n) :: n in emitted || (arrivals[n].path in waiting && waiting[arrivals[n].path] == n)
  }

  datatype Pass = Pass(path: string, time: int)

  /** Two passes of one path are a window apart. */
  ghost predicate Spaced(passes: seq<Pass>, last: map<string, int>, window: nat) {
    && (forall i, j | 0 <= i < j < |passes| && passes[i].path == passes[j].path :: passes[j].time - passes[i].time >= window)
    && (forall i | 0 <= i < |passes| :: passes[i].path in last && passes[i].time <= last[passes[i].path])
  }

  ghost predicate Distinct(queue: seq<string>) {
    forall i, j | 0 <= i < j < |queue| :: queue[i] != queue[j]
  }

  ghost predicate Queued(queue: seq<string>, pending: map<string, FileEvent>) {
    Distinct(queue) && forall p :: p in queue <==> p in pending
  }

  function Drop(queue: seq<string>, path: string): (r: seq<string>)
    ensures forall p :: p in r <==> p in queue && p != path
  {
    if queue == [] then []
    else (if queue[0] == path then [] else [queue[0]]) + Drop(queue[1..], path)
  }

  lemma {:induction false} DropDistinct(queue: seq<string>, path: string)
    requires Distinct(queue)
    ensures Distinct(Drop(queue, path))
  {
    if queue != [] {
      DropDistinct(queue[1..], path);
      assert queue[0] !in queue[1..];
    }
  }

  ghost predicate Kept(arrivals: seq<FileEvent>, emitted: seq<nat>, waiting: map<string, nat>, pending: map<string, FileEvent>) {
    InOrder(arrivals, emitted) && Waits(arrivals, emitted, waiting, pending) && NothingLost(arrivals, emitted, waiting)
  }

  lemma StillLatest(arrivals: seq<FileEvent>, event: FileEvent, n: nat)
    requires LatestOf(arrivals + [event], n)
    ensures n == |arrivals| || (LatestOf(arrivals, n) && arrivals[n].path != event.path)
  {
    var more := arrivals + [event];
    if n < |arrivals| {
      assert more[|arrivals|] == event;
      forall m | n < m < |arrivals| ensures arrivals[m].path != arrivals[n].path {
        assert more[m] == arrivals[m];
      }
    }
  }

  lemma KeptHolding(arrivals: seq<FileEvent>, emitted: seq<nat>, waiting: map<string, nat>, pending: map<string, FileEvent>, event: FileEvent)
    requires Kept(arrivals, emitted, waiting, pending)
    ensures Kept(arrivals + [event], emitted, waiting[event.path := |arrivals|], pending[event.path := event])
  {
    forall n: nat | LatestOf(arrivals + [event], n) ensures n == |arrivals| || n in emitted || (arrivals[n].path != event.path && arrivals[n].path in waiting && waiting[arrivals[n].path] == n) {
      StillLatest(arrivals, event, n);
    }
  }

  lemma KeptPassing(arrivals: seq<FileEvent>, emitted: seq<nat>, waiting: map<string, nat>, pending: map<string, FileEvent>, event: FileEvent)
    requires Kept(arrivals, emitted, waiting, pending)
    ensures Kept(arrivals + [event], emitted + [|arrivals|], waiting - {event.path}, pending - {event.path})
  {
    var path := event.path;
    var more, out := arrivals + [event], emitted + [|arrivals|];
    assert (waiting - {path}).Keys == waiting.Keys - {path} && (pending - {path}).Keys == pending.Keys - {path};
    forall n: nat | LatestOf(more, n) ensures n in out || (more[n].path in waiting - {path} && waiting[more[n].path] == n) {
      StillLatest(arrivals, event, n);
      if n == |arrivals| { assert out[|emitted|] == n; }
      if n in emitted { var i :| 0 <= i < |emitted| && emitted[i] == n; assert out[i] == n; }
    }
  }

  lemma KeptFlushing(arrivals: seq<FileEvent>, emitted: seq<nat>, waiting: map<string, nat>, pending: map<string, FileEvent>, path: string)
    requires Kept(arrivals, emitted, waiting, pending) && path in waiting
    ensures Kept(arrivals, emitted + [waiting[path]], waiting - {path}, pending - {path})
  {
    var out := emitted + [waiting[path]];
    assert (waiting - {path}).Keys == waiting.Keys - {path} && (pending - {path}).Keys == pending.Keys - {path};
    forall n: nat | LatestOf(arrivals, n) ensures n in out || (arrivals[n].path in waiting - {path} && waiting[arrivals[n].path] == n) {
      if n == waiting[path] { assert out[|emitted|] == n; }
      if n in emitted { var i :| 0 <= i < |emitted| && emitted[i] == n; assert out[i] == n; }
    }
  }

  lemma QueuedHolding(queue: seq<string>, pending: map<string, FileEvent>, event: FileEvent)
    requires Queued(queue, pending)
    ensures Queued(if event.path in pending then queue else queue + [event.path], pending[event.path := event])
  {
  }

  lemma QueuedPassing(queue: seq<string>, pending: map<string, FileEvent>, path: string)
    requires Queued(queue, pending)
    ensures Queued(Drop(queue, path), pending - {path})
  {
    DropDistinct(queue, path);
  }

  lemma QueuedTail(queue: seq<string>, pending: map<string, FileEvent>)
    requires Queued(queue, pending) && queue != []
    ensures queue[0] in pending && Queued(queue[1..], pending - {queue[0]})
  {
    assert queue[0] in queue;
    forall p ensures p in queue[1..] <==> p in pending - {queue[0]} {
      assert p in queue <==> p == queue[0] || p in queue[1..];
    }
  }

  /** The values of some keys, in the order of the keys. */
  function Taken<V>(m: map<string, V>, keys: seq<string>): (r: seq<V>)
    requires forall k | k in keys :: k in m
  {
    if keys == [] then [] else Taken(m, keys[..|keys| - 1]) + [m[keys[|keys| - 1]]]
  }

  lemma SpacedPassing(passes: seq<Pass>, last: map<string, int>, window: nat, path: string, now: int)
    requires Spaced(passes, last, window) && (path in last ==> now - last[path] >= window)
    ensures Spaced(passes + [Pass(path, now)], last[path := now], window)
  {
  }

  class DebounceLayer {
    const window: nat
    var lastEvent: map<string, int>
    /** The pending dictionary: its keys in insertion order. */
    var queue: seq<string>
    var pending: map<string, FileEvent>
    ghost var arrivals: seq<FileEvent>
    ghost var emitted: seq<nat>
    ghost var waiting: map<string, nat>
    ghost var passes: seq<Pass>

    ghost predicate Valid()
      reads this
    {
      && Queued(queue, pending)
      && Kept(arrivals, emitted, waiting, pending)
      && Spaced(passes, lastEvent, window)
    }

    constructor (window: nat)
      ensures Valid() && this.window == window && arrivals == [] && emitted == []
      ensures lastEvent == map[] && pending == map[]
    {
      this.window := window;
      lastEvent, queue, pending := map[], [], map[];
      arrivals, emitted, waiting, passes := [], [], map[], [];
    }

    method Process(event: FileEvent, now: int) returns (passed: bool)
      requires Valid()
      modifies this
      ensures Valid() && arrivals == old(arrivals) + [event]
      ensures passed <==> now - (if event.path in old(lastEvent) then old(lastEvent)[event.path] else 0) >= window
      ensures passed ==> emitted == old(emitted) + [|old(arrivals)|] && pending == old(pending) - {event.path}
      ensures passed ==> lastEvent == old(lastEvent)[event.path := now]
      ensures passed ==> passes == old(passes) + [Pass(event.path, now)]
      ensures !passed ==> emitted == old(emitted) && pending == old(pending)[event.path := event]
      ensures !passed ==> lastEvent == old(lastEvent) && passes == old(passes)
    {
      hide Kept, Queued, Spaced, Drop;
      var path := event.path;
      var last := if path in lastEvent then lastEvent[path] else 0;
      ghost var n := |arrivals|;
      if now - last < window {
        KeptHolding(arrivals, emitted, waiting, pending, event);
        QueuedHolding(queue, pending, event);
        if path !in pending { queue := queue + [path]; }
        pending := pending[path := event];
        waiting := waiting[path := n];
        arrivals := arrivals + [event];
        return false;
      }
      KeptPassing(arrivals, emitted, waiting, pending, event);
      QueuedPassing(queue, pending, path);
      SpacedPassing(passes, lastEvent, window, path, now);
      lastEvent := lastEvent[path := now];
      queue := Drop(queue, path);
      pending := pending - {path};
      waiting := waiting - {path};
      arrivals, emitted := arrivals + [event], emitted + [n];
      passes := passes + [Pass(path, now)];
      return true;
    }

    /** Emits what waits, in the order it began to wait, and forgets the windows:
        the latest arrival of every path has then been emitted. */
    method FlushPending() returns (results: seq<FileEvent>)
      requires Valid()
      modifies this
      ensures Valid() && arrivals == old(arrivals)
      ensures forall p | p in old(queue) :: p in old(waiting) && p in old(pending)
      ensures emitted == old(emitted) + Taken(old(waiting), old(queue)) && results == Taken(old(pending), old(queue))
      ensures forall n: nat | LatestOf(arrivals, n) :: n in emitted
      ensures pending == map[] && lastEvent == map[] && passes == []
    {
      hide Queued, Kept, Spaced, Flushing, Taken;
      results := [];
      ghost var waits, held := waiting, pending;
      FlushStarts(queue, waiting, pending, arrivals, emitted);
      for k := 0 to |queue|
        invariant pending == old(pending) && queue == old(queue) && arrivals == old(arrivals) && waiting == old(waiting)
        invariant Flushing(queue, k, waiting, pending, arrivals, old(emitted), emitted, waits, held, results)
      {
        FlushOne(queue, k, waiting, pending, arrivals, old(emitted), emitted, waits, held, results);
        var path := queue[k];
        results := results + [pending[path]];
        emitted := emitted + [waiting[path]];
        waits, held := waits - {path}, held - {path};
      }
      FlushEnds(queue, waiting, pending, arrivals, old(emitted), emitted, waits, held, results);
      pending, queue, lastEvent := map[], [], map[];
      waiting, passes := map[], [];
      assert Spaced(passes, lastEvent, window) by { NothingSpaced(window); }
    }
  }

  lemma NothingSpaced(window: nat)
    ensures Spaced([], map[], window)
  {
  }

  /** The first k waiting paths have been emitted; `waits` and `held` are the rest. */
  ghost predicate Flushing(queue: seq<string>, k: nat, waiting: map<string, nat>, pending: map<string, FileEvent>,
                           arrivals: seq<FileEvent>, before: seq<nat>, emitted: seq<nat>,
                           waits: map<string, nat>, held: map<string, FileEvent>, results: seq<FileEvent>)
  {
    && k <= |queue| && (forall p | p in queue :: p in waiting && p in pending)
    && results == Taken(pending, queue[..k]) && emitted == before + Taken(waiting, queue[..k])
    && Kept(arrivals, emitted, waits, held) && Queued(queue[k..], held)
    && (forall p | p in waits :: p in waiting && waits[p] == waiting[p])
  }

  lemma FlushStarts(queue: seq<string>, waiting: map<string, nat>, pending: map<string, FileEvent>,
                    arrivals: seq<FileEvent>, emitted: seq<nat>)
    requires Kept(arrivals, emitted, waiting, pending) && Queued(queue, pending)
    ensures Flushing(queue, 0, waiting, pending, arrivals, emitted, emitted, waiting, pending, [])
  {
    hide InOrder, NothingLost;
    assert queue[0..] == queue;
  }

  lemma FlushEnds(queue: seq<string>, waiting: map<string, nat>, pending: map<string, FileEvent>,
                  arrivals: seq<FileEvent>, before: seq<nat>, emitted: seq<nat>,
                  waits: map<string, nat>, held: map<string, FileEvent>, results: seq<FileEvent>)
    requires Flushing(queue, |queue|, waiting, pending, arrivals, before, emitted, waits, held, results)
    ensures forall p | p in queue :: p in waiting && p in pending
    ensures results == Taken(pending, queue) && emitted == before + Taken(waiting, queue)
    ensures Kept(arrivals, emitted, map[], map[]) && Queued([], map[])
    ensures forall n: nat | LatestOf(arrivals, n) :: n in emitted
  {
    hide InOrder, LatestOf;
    assert queue[..|queue|] == queue && queue[|queue|..] == [];
    assert held.Keys == {} && waits.Keys == {};
    assert held == map[] && waits == map[];
  }

  lemma FlushOne(queue: seq<string>, k: nat, waiting: map<string, nat>, pending: map<string, FileEvent>,
                 arrivals: seq<FileEvent>, before: seq<nat>, emitted: seq<nat>,
                 waits: map<string, nat>, held: map<string, FileEvent>, results: seq<FileEvent>)
    requires k < |queue| && Flushing(queue, k, waiting, pending, arrivals, before, emitted, waits, held, results)
    ensures queue[k] in waiting && queue[k] in pending
    ensures Flushing(queue, k + 1, waiting, pending, arrivals, before, emitted + [waiting[queue[k]]],
                     waits - {queue[k]}, held - {queue[k]}, results + [pending[queue[k]]])
  {
    hide InOrder, NothingLost, Queued;
    var path := queue[k];
    QueuedTail(queue[k..], held);
    assert queue[k..][0] == path && queue[k..][1..] == queue[k + 1..];
    assert path in waits;
    KeptFlushing(arrivals, emitted, waits, held, path);
    assert queue[..k + 1][..k] == queue[..k] && queue[..k + 1][k] == path;
  }

  // ---- tier 2 ----

  function Last(s: seq<string>, n: nat): seq<string> {
    if |s| <= n then s else s[|s| - n..]
  }

  lemma LastGrows(s: seq<string>, n: nat, x: string)
    ensures |Last(s, n)| < n ==> Last(s + [x], n) == Last(s, n) + [x]
    ensures |Last(s, n)| == n ==> Last(s + [x], n) == (Last(s, n) + [x])[1..]
    ensures |Last(s, n)| <= n
  {
  }

  ghost predicate Lists(order: seq<string>, cache: map<string, string>) {
    Distinct(order) && forall p :: p in order <==> p in cache
  }

  /** The cache holds the last hash seen of the last paths to enter it, and of all paths
      while they fit. */
  ghost predicate Remembers(size: nat, order: seq<string>, cache: map<string, string>, entered: seq<string>, seen: map<string, string>) {
    && Lists(order, cache)
    && order == Last(entered, size)
    && (forall p | p in cache :: p in seen && seen[p] == cache[p])
    && (|seen| <= size ==> cache == seen)
  }

  lemma ListsFirst(order: seq<string>, cache: map<string, string>)
    requires Lists(order, cache) && order != []
    ensures order[0] in cache && Lists(order[1..], cache - {order[0]})
  {
    assert order[0] in order;
    forall p ensures p in order[1..] <==> p in cache - {order[0]} {
      assert p in order <==> p == order[0] || p in order[1..];
    }
  }

  lemma ListsMore(order: seq<string>, cache: map<string, string>, path: string, hash: string)
    requires Lists(order, cache) && path !in cache
    ensures Lists(order + [path], cache[path := hash])
  {
    assert path !in order;
  }

  lemma OrderSize(order: seq<string>, cache: map<string, string>)
    requires Lists(order, cache)
    ensures |order| == |cache|
    decreases |order|
  {
    if order == [] {
      assert cache.Keys == {};
    } else {
      ListsFirst(order, cache);
      OrderSize(order[1..], cache - {order[0]});
      assert (cache - {order[0]}).Keys == cache.Keys - {order[0]};
    }
  }

  lemma RemembersAgain(size: nat, order: seq<string>, cache: map<string, string>, entered: seq<string>, seen: map<string, string>, path: string, hash: string)
    requires Remembers(size, order, cache, entered, seen) && path in cache
    ensures Remembers(size, order, cache[path := hash], entered, seen[path := hash])
    ensures |cache[path := hash]| <= size
  {
    hide Distinct;
    OrderSize(order, cache);
    assert cache[path := hash].Keys == cache.Keys && seen[path := hash].Keys == seen.Keys;
  }

  /** The sizes when a path enters: what fits afterwards fitted before. */
  lemma EnteringSizes(cache: map<string, string>, seen: map<string, string>, path: string, hash: string)
    requires path !in cache && cache.Keys <= seen.Keys
    ensures var grown, more := cache[path := hash], seen[path := hash];
      |grown| == |cache| + 1 && |grown| <= |more| && |seen| <= |more|
  {
    assert cache[path := hash].Keys == cache.Keys + {path} && seen[path := hash].Keys == seen.Keys + {path};
    SubsetSize(cache[path := hash].Keys, seen[path := hash].Keys);
    SubsetSize(seen.Keys, seen[path := hash].Keys);
  }

  lemma RemembersEntering(size: nat, order: seq<string>, cache: map<string, string>, entered: seq<string>, seen: map<string, string>, path: string, hash: string)
    requires Remembers(size, order, cache, entered, seen) && path !in cache
    ensures var all, grown := order + [path], cache[path := hash];
      if |grown| <= size then Remembers(size, all, grown, entered + [path], seen[path := hash])
      else Remembers(size, all[1..], grown - {all[0]}, entered + [path], seen[path := hash])
  {
    hide Lists, Last;
    OrderSize(order, cache);
    EnteringSizes(cache, seen, path, hash);
    ListsMore(order, cache, path, hash);
    LastGrows(entered, size, path);
    ListsFirst(order + [path], cache[path := hash]);
  }

  lemma SubsetSize(a: set<string>, b: set<string>)
    requires a <= b
    ensures |a| <= |b|
  {
    assert |b - a| == |b| - |a|;
  }

  /** The path's last hash again, while the path is among the last `cacheSize` to enter. */
  ghost predicate Repeats(entered: seq<string>, seen: map<string, string>, cacheSize: nat, path: string, hash: string) {
    path in Last(entered, cacheSize) && path in seen && seen[path] == hash && hash != ""
  }

  class ASTDiffLayer {
    const cacheSize: nat
    /** The cache dictionary: its keys in insertion order. */
    var order: seq<string>
    var cache: map<string, string>
    ghost var entered: seq<string>
    ghost var seen: map<string, string>

    ghost predicate Valid()
      reads this
    {
      Remembers(cacheSize, order, cache, entered, seen)
    }

    constructor (cacheSize: nat)
      ensures Valid() && this.cacheSize == cacheSize && seen == map[] && entered == []
    {
      this.cacheSize := cacheSize;
      order, cache, entered, seen := [], map[], [], map[];
    }

    /** Blocks a change whose hash is the path's last one, if the path is still among
        the last `cacheSize` to enter: never anything else, and every repeat while the
        paths fit in the cache. */
    method Process(path: string, hash: string) returns (blocked: bool)
      requires Valid()
      modifies this
      ensures Valid() && seen == old(seen)[path := hash]
      ensures entered == if path in Last(old(entered), cacheSize) then old(entered) else old(entered) + [path]
      ensures blocked <==> Repeats(old(entered), old(seen), cacheSize, path, hash)
      ensures |seen| <= cacheSize ==> (blocked <==> path in old(seen) && old(seen)[path] == hash && hash != "")
    {
      assert |old(seen)| <= |old(seen)[path := hash]| by { SubsetSize(seen.Keys, seen[path := hash].Keys); }
      blocked := path in cache && cache[path] != "" && cache[path] == hash;
      if path in cache {
        RemembersAgain(cacheSize, order, cache, entered, seen, path, hash);
      } else {
        RemembersEntering(cacheSize, order, cache, entered, seen, path, hash);
        order := order + [path];
        entered := entered + [path];
      }
      cache := cache[path := hash];
      seen := seen[path := hash];
      if |cache| > cacheSize {
        var oldest := order[0];
        order := order[1..];
        cache := cache - {oldest};
      }
    }
  }

  // ---- the cascade ----

  /** One change that arrived, and the tier that answered it. */
  datatype Arrival = Arrival(path: string, content: string, tier: nat)

  /** The last non-empty content of a path, however it was answered. */
  function LastContent(log: seq<Arrival>, path: string): string {
    if log == [] then ""
    else if log[|log| - 1].path == path && log[|log| - 1].content != "" then log[|log| - 1].content
    else LastContent(log[..|log| - 1], path)
  }

  /** Where the gate last judged the path, or -1. */
  function LastJudged(log: seq<Arrival>, path: string): (k: int)
    ensures -1 <= k < |log|
  {
    if log == [] then -1
    else if log[|log| - 1].path == path && log[|log| - 1].tier == 3 then |log| - 1
    else LastJudged(log[..|log| - 1], path)
  }

  lemma {:induction false} LastJudgedIs(log: seq<Arrival>, path: string)
    ensures var k := LastJudged(log, path);
      && (k >= 0 ==> log[k].path == path && log[k].tier == 3)
      && (forall j | k < j < |log| :: !(log[j].path == path && log[j].tier == 3))
  {
    if log != [] { LastJudgedIs(log[..|log| - 1], path); }
  }

  /** What the gate last saw of the path as new; nothing if it never saw any. */
  function Judged(log: seq<Arrival>, path: string): string {
    if LastJudged(log, path) < 0 then "" else log[LastJudged(log, path)].content
  }

  lemma {:induction false} LastContentSplit(a: seq<Arrival>, b: seq<Arrival>, path: string)
    ensures LastContent(a + b, path) == if LastContent(b, path) != "" then LastContent(b, path) else LastContent(a, path)
  {
    if b == [] {
      assert a + b == a;
    } else {
      assert (a + b)[..|a + b| - 1] == a + b[..|b| - 1];
      LastContentSplit(a, b[..|b| - 1], path);
    }
  }

  lemma LastContentMore(log: seq<Arrival>, a: Arrival, path: string)
    ensures LastContent(log + [a], path) == if a.path == path && a.content != "" then a.content else LastContent(log, path)
  {
    assert (log + [a])[..|log|] == log;
  }

  /** The old content handed to the gate is what it last judged exactly when, of the
      non-empty contents that have come since, held back or blocked, the last is the
      same again; if none has come, exactly when what it judged was not empty or
      nothing non-empty had ever come. */
  lemma ComparedWithJudgedIff(log: seq<Arrival>, path: string)
    ensures var k := LastJudged(log, path); var since := LastContent(log[k + 1..], path);
      LastContent(log, path) == Judged(log, path)
      <==> if since != "" then since == Judged(log, path)
           else Judged(log, path) != "" || LastContent(log[..if k < 0 then 0 else k], path) == ""
  {
    hide LastContent, LastJudged;
    var k := LastJudged(log, path);
    CutContent(log, k + 1, path);
    NoContent(path);
    if k >= 0 {
      JudgedThere(log, path);
      assert log[..k + 1] == log[..k] + [log[k]];
      LastContentMore(log[..k], log[k], path);
    } else {
      assert log[..k + 1] == log[..0] == [];
    }
  }

  lemma NoContent(path: string)
    ensures LastContent([], path) == ""
  {
  }

  lemma JudgedThere(log: seq<Arrival>, path: string)
    ensures LastJudged(log, path) >= 0 ==> log[LastJudged(log, path)].path == path
  {
    LastJudgedIs(log, path);
  }

  lemma CutContent(log: seq<Arrival>, n: nat, path: string)
    requires n <= |log|
    ensures LastContent(log, path) == if LastContent(log[n..], path) != "" then LastContent(log[n..], path) else LastContent(log[..n], path)
  {
    assert log == log[..n] + log[n..];
    LastContentSplit(log[..n], log[n..], path);
  }

  datatype Stats = Stats(tier1Passed: nat, tier2Blocked: nat, tier3Called: nat, significant: nat)

  datatype AwareResult = AwareResult(tier: nat, significant: bool)

  function ContentOf(contents: map<string, string>, path: string): string {
    if path in contents then contents[path] else ""
  }

  /** The content cache holds the last non-empty content of every path. */
  ghost predicate Remembered(contents: map<string, string>, log: seq<Arrival>) {
    forall path :: ContentOf(contents, path) == LastContent(log, path)
  }

  lemma RememberedAt(contents: map<string, string>, log: seq<Arrival>, path: string)
    requires Remembered(contents, log)
    ensures ContentOf(contents, path) == LastContent(log, path)
  {
  }

  lemma RememberedMore(contents: map<string, string>, log: seq<Arrival>, a: Arrival)
    requires Remembered(contents, log)
    ensures Remembered(if a.content == "" then contents else contents[a.path := a.content], log + [a])
  {
    hide LastContent;
    forall path { LastContentMore(log, a, path); }
  }

  class AwareEngine {
    const tier1: DebounceLayer
    const tier2: ASTDiffLayer
    var contents: map<string, string>
    var stats: Stats
    ghost var log: seq<Arrival>

    ghost predicate Valid()
      reads this, tier1, tier2
    {
      Counted() && Remembered(contents, log)
    }

    ghost predicate Counted()
      reads this, tier1, tier2
    {
      && tier1.Valid() && tier2.Valid()
      && stats.tier1Passed == stats.tier2Blocked + stats.tier3Called
      && stats.significant <= stats.tier3Called
    }

    constructor (window: nat, cacheSize: nat)
      ensures Valid() && fresh(tier1) && fresh(tier2) && stats == Stats(0, 0, 0, 0) && contents == map[]
      ensures tier1.window == window && tier1.lastEvent == map[] && log == []
    {
      tier1 := new DebounceLayer(window);
      tier2 := new ASTDiffLayer(cacheSize);
      contents, stats, log := map[], Stats(0, 0, 0, 0), [];
    }

    /** One file change. `hash` stands for the syntax-tree digest, `gate` for the model's
        or the heuristic's judgement of the old and the new content. */
    method ProcessEvent(event: FileEvent, content: string, now: int, hash: string -> string, gate: (string, string) -> bool)
      returns (r: AwareResult)
      requires Valid()
      modifies this, tier1, tier2
      ensures Valid()
      ensures tier1.arrivals == old(tier1.arrivals) + [event]
      ensures tier1.lastEvent == (if r.tier == 0 then old(tier1.lastEvent) else old(tier1.lastEvent)[event.path := now])
      ensures contents == if content == "" then old(contents) else old(contents)[event.path := content]
      ensures r.tier == 0 <==> now - (if event.path in old(tier1.lastEvent) then old(tier1.lastEvent)[event.path] else 0) < tier1.window
      ensures r.tier == 0 ==> !r.significant && stats == old(stats) && tier1.emitted == old(tier1.emitted)
      ensures r.tier != 0 ==> tier1.emitted == old(tier1.emitted) + [|old(tier1.arrivals)|]
      ensures tier2.seen == if r.tier == 0 || content == "" then old(tier2.seen) else old(tier2.seen)[event.path := hash(content)]
      ensures r.tier == 2 <==> r.tier != 0 && content != "" && Repeats(old(tier2.entered), old(tier2.seen), tier2.cacheSize, event.path, hash(content))
      ensures tier2.entered == if r.tier == 0 || content == "" || event.path in Last(old(tier2.entered), tier2.cacheSize)
        then old(tier2.entered) else old(tier2.entered) + [event.path]
      ensures r.tier == 2 ==> !r.significant
      ensures r.tier == 2 ==> stats == old(stats).(tier1Passed := old(stats).tier1Passed + 1, tier2Blocked := old(stats).tier2Blocked + 1)
      ensures log == old(log) + [Arrival(event.path, content, r.tier)]
      ensures r.tier == 0 || r.tier == 2 || (r.tier == 3 && r.significant == gate(LastContent(old(log), event.path), content))
      ensures r.tier == 3 ==> stats == old(stats).(tier1Passed := old(stats).tier1Passed + 1, tier3Called := old(stats).tier3Called + 1,
        significant := old(stats).significant + if r.significant then 1 else 0)
    {
      hide DebounceLayer.Valid, ASTDiffLayer.Valid, Remembered, LastContent, Repeats, Last;
      assert ContentOf(contents, event.path) == LastContent(log, event.path) by { RememberedAt(contents, log, event.path); }
      var oldContent := ContentOf(contents, event.path);
      if content != "" { contents := contents[event.path := content]; }
      var passed := tier1.Process(event, now);
      r := AwareResult(0, false);
      if passed {
        r := ProcessPassed(event.path, oldContent, content, hash, gate);
      }
      RememberedMore(old(contents), log, Arrival(event.path, content, r.tier));
      log := log + [Arrival(event.path, content, r.tier)];
    }

    /** Tiers 2 and 3, for an event that passed the window. */
    method ProcessPassed(path: string, oldContent: string, content: string, hash: string -> string, gate: (string, string) -> bool)
      returns (r: AwareResult)
      requires Counted()
      modifies this`stats, tier2
      ensures Counted() && r.tier in {2, 3}
      ensures tier2.seen == if content == "" then old(tier2.seen) else old(tier2.seen)[path := hash(content)]
      ensures r.tier == 2 <==> content != "" && Repeats(old(tier2.entered), old(tier2.seen), tier2.cacheSize, path, hash(content))
      ensures tier2.entered == if content == "" || path in Last(old(tier2.entered), tier2.cacheSize) then old(tier2.entered) else old(tier2.entered) + [path]
      ensures r.tier == 2 ==> !r.significant
      ensures r.tier == 2 ==> stats == old(stats).(tier1Passed := old(stats).tier1Passed + 1, tier2Blocked := old(stats).tier2Blocked + 1)
      ensures r.tier == 3 ==> r.significant == gate(oldContent, content)
      ensures r.tier == 3 ==> stats == old(stats).(tier1Passed := old(stats).tier1Passed + 1, tier3Called := old(stats).tier3Called + 1,
        significant := old(stats).significant + if r.significant then 1 else 0)
    {
      hide DebounceLayer.Valid, ASTDiffLayer.Valid, Last, Repeats;
      stats := stats.(tier1Passed := stats.tier1Passed + 1);
      if content != "" {
        var blocked := tier2.Process(path, hash(content));
        if blocked {
          stats := stats.(tier2Blocked := stats.tier2Blocked + 1);
          return AwareResult(2, false);
        }
      }
      var significant := gate(oldContent, content);
      stats := stats.(tier3Called := stats.tier3Called + 1, significant := stats.significant + if significant then 1 else 0);
      return AwareResult(3, significant);
    }

    method ResetStats()
      requires Valid()
      modifies this`stats
      ensures Valid() && stats == Stats(0, 0, 0, 0)
    {
      stats := Stats(0, 0, 0, 0);
    }

    /** A flush hands out what tier 1 held back. Nothing of it is hashed, judged or
        counted. */
    method Flush() returns (results: seq<FileEvent>)
      requires Valid()
      modifies tier1
      ensures Valid() && tier1.arrivals == old(tier1.arrivals)
      ensures |results| == |old(tier1.queue)| && |tier1.emitted| == |old(tier1.emitted)| + |results|
      ensures forall n: nat | LatestOf(tier1.arrivals, n) :: n in tier1.emitted
    {
      results := tier1.FlushPending();
      TakenSize(old(tier1.pending), old(tier1.queue));
      TakenSize(old(tier1.waiting), old(tier1.queue));
    }
  }

  lemma {:induction false} TakenSize<V>(m: map<string, V>, keys: seq<string>)
    requires forall k | k in keys :: k in m
    ensures |Taken(m, keys)| == |keys|
  {
    if keys != [] { TakenSize(m, keys[..|keys| - 1]); }
  }

  /** The shortest such run: the event after one that was held back is judged against
      the content that was held, not against the last one judged. */
  method HeldChangeIsSkipped(engine: AwareEngine, first: FileEvent, held: FileEvent, next: FileEvent,
                             a: string, b: string, c: string, now: int, hash: string -> string, gate: (string, string) -> bool)
    returns (r: AwareResult)
    requires engine.Valid() && first.path == held.path == next.path && a != "" && b != "" && c != ""
    requires engine.tier1.window > 0 && now >= engine.tier1.window && first.path !in engine.tier1.lastEvent
    modifies engine, engine.tier1, engine.tier2
    ensures r.tier == 2 || (r.tier == 3 && r.significant == gate(b, c))
  {
    var _ := engine.ProcessEvent(first, a, now, hash, gate);
    var _ := engine.ProcessEvent(held, b, now, hash, gate);
    r := engine.ProcessEvent(next, c, now + engine.tier1.window, hash, gate);
  }
}
