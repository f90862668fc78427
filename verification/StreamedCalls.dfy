/** Streamed tool calls: fragments of several calls arrive interleaved and are
    collected into one entry per index, in order of first arrival. */
module StreamedCalls {
  import opened Options
  import opened Text

  /** The id of a fragment: the key may be missing, or there with a null. */
  datatype Id = Absent | Null | Given(text: string)

  /** One fragment; name and arguments may be empty. */
  datatype Delta = Delta(index: nat, id: Id, name: string, arguments: string)

  /** A call whose first fragment has a null id, and no later one an id, has none. */
  datatype Call = Call(id: Option<string>, name: string, arguments: string)

  /** The collected calls: a dictionary that remembers the order of its keys. */
  datatype Table = Table(order: seq<nat>, calls: map<nat, Call>)

  ghost predicate WellFormed(t: Table) {
    && (forall k :: k in t.order <==> k in t.calls)
    && forall i, j | 0 <= i < j < |t.order| :: t.order[i] != t.order[j]
  }

  function Values(t: Table): seq<Call>
    requires WellFormed(t)
  {
    seq(|t.order|, i requires 0 <= i < |t.order| => assert t.order[i] in t.order; t.calls[t.order[i]])
  }

  // ---- what the fragments of one index amount to ----

  function Fragments(ds: seq<Delta>, index: nat): seq<Delta> {
    if ds == [] then []
    else Fragments(ds[..|ds| - 1], index) + (if ds[|ds| - 1].index == index then [ds[|ds| - 1]] else [])
  }

  /** One part of every fragment, joined. */
  function Spelled(ds: seq<Delta>, part: Delta -> string): string {
    Joined(seq(|ds|, i requires 0 <= i < |ds| => part(ds[i])))
  }

  /** The last non-empty id, or the default the first fragment set. */
  function IdOf(ds: seq<Delta>, fallback: string): Option<string> {
    if ds == [] then Some(fallback)
    else if ds[|ds| - 1].id.Given? && ds[|ds| - 1].id.text != "" then Some(ds[|ds| - 1].id.text)
    else if |ds| == 1 then FirstId(ds[0], fallback)
    else IdOf(ds[..|ds| - 1], fallback)
  }

  /** A call has the last id its fragments give that is not empty. If they give none, the
      first fragment decides: without the key the call gets the fallback, with a null it has
      no id, with an empty id an empty one. */
  lemma {:induction false} IdIs(ds: seq<Delta>, fallback: string, i: nat)
    requires i < |ds|
    ensures ds[i].id.Given? && ds[i].id.text != "" && (forall j | i < j < |ds| :: ds[j].id in {Absent, Null, Given("")}) ==>
      IdOf(ds, fallback) == Some(ds[i].id.text)
    ensures (forall j | 0 <= j < |ds| :: ds[j].id in {Absent, Null, Given("")}) ==>
      IdOf(ds, fallback) == if ds[0].id == Absent then Some(fallback) else if ds[0].id == Null then None else Some("")
  {
    var n := |ds| - 1;
    assert forall j | 0 <= j < n :: ds[..n][j] == ds[j];
    if n > 0 { IdIs(ds[..n], fallback, if i < n then i else 0); }
  }

  /** The fallback stands in only when the key is missing. */
  function FirstId(d: Delta, fallback: string): Option<string> {
    match d.id
    case Absent => Some(fallback)
    case Null => None
    case Given(text) => Some(text)
  }

  /** Indices in order of first arrival. */
  function Arrivals(ds: seq<Delta>): seq<nat> {
    if ds == [] then []
    else
      var rest := Arrivals(ds[..|ds| - 1]);
      if ds[|ds| - 1].index in rest then rest else rest + [ds[|ds| - 1].index]
  }

  /** The indices that have arrived, each once, the one that arrived first in front. */
  lemma {:induction false} ArrivalsInOrder(ds: seq<Delta>)
    ensures forall k :: k in Arrivals(ds) <==> exists i | 0 <= i < |ds| :: ds[i].index == k
    ensures forall a, b | 0 <= a < b < |Arrivals(ds)| :: Arrivals(ds)[a] != Arrivals(ds)[b]
    ensures forall a, i | 0 <= a < |Arrivals(ds)| && 0 <= i < |ds| && ds[i].index == Arrivals(ds)[a] ::
      forall b | 0 <= b < a :: exists j | 0 <= j < i :: ds[j].index == Arrivals(ds)[b]
  {
    if ds != [] {
      var n := |ds| - 1;
      ArrivalsInOrder(ds[..n]);
      var rest := Arrivals(ds[..n]);
      assert forall i | 0 <= i < n :: ds[..n][i] == ds[i];
      forall a, i, b | 0 <= a < |Arrivals(ds)| && 0 <= i < |ds| && ds[i].index == Arrivals(ds)[a] && 0 <= b < a
        ensures exists j | 0 <= j < i :: ds[j].index == Arrivals(ds)[b]
      {
        assert b < |rest| && rest[b] in rest;
        if i == n {
          var j :| 0 <= j < n && ds[..n][j].index == rest[b];
          assert ds[j].index == rest[b];
        } else {
          assert ds[..n][i].index in rest;
          assert a < |rest|;
        }
      }
    }
  }

  function NameOf(d: Delta): string { d.name }

  function ArgumentsOf(d: Delta): string { d.arguments }

  function Assembled(fs: seq<Delta>, index: nat, fallback: nat -> string): Call {
    Call(IdOf(fs, fallback(index)), Spelled(fs, NameOf), Spelled(fs, ArgumentsOf))
  }

  /** The table holds, for every index that has arrived, what its fragments so far
      amount to. */
  ghost predicate Collected(t: Table, ds: seq<Delta>, fallback: nat -> string) {
    && WellFormed(t) && t.order == Arrivals(ds)
    && (forall k | k in t.calls :: t.calls[k] == Assembled(Fragments(ds, k), k, fallback))
    && (forall k | k !in t.calls :: Fragments(ds, k) == [])
  }

  /** One more fragment for a call that already has an entry, or starts one. */
  lemma AssembledMore(fs: seq<Delta>, d: Delta, index: nat, fallback: nat -> string)
    ensures var c := if fs == [] then Call(FirstId(d, fallback(index)), "", "") else Assembled(fs, index, fallback);
      Assembled(fs + [d], index, fallback)
      == Call(if d.id.Given? && d.id.text != "" then Some(d.id.text) else c.id, c.name + d.name, c.arguments + d.arguments)
  {
    SpelledMore(fs, d, NameOf);
    SpelledMore(fs, d, ArgumentsOf);
    assert (fs + [d])[..|fs|] == fs;
  }

  lemma SpelledMore(fs: seq<Delta>, d: Delta, part: Delta -> string)
    ensures Spelled(fs + [d], part) == Spelled(fs, part) + part(d)
  {
    var parts := seq(|fs|, i requires 0 <= i < |fs| => part(fs[i]));
    assert seq(|fs| + 1, i requires 0 <= i < |fs| + 1 => part((fs + [d])[i])) == parts + [part(d)];
    JoinedAll(parts, [part(d)]);
    JoinedOne(part(d));
  }

  /** An index has an entry exactly when a fragment of it has arrived. */
  lemma {:induction false} ArrivedIff(ds: seq<Delta>, k: nat)
    ensures k in Arrivals(ds) <==> Fragments(ds, k) != []
  {
    if ds != [] { ArrivedIff(ds[..|ds| - 1], k); }
  }

  method TakeDelta(t: Table, d: Delta, fallback: nat -> string, ghost ds: seq<Delta>) returns (r: Table)
    requires Collected(t, ds, fallback)
    ensures Collected(r, ds + [d], fallback)
  {
    hide Assembled, Fragments;
    var idx := d.index;
    ghost var fs := Fragments(ds, idx);
    ArrivedIff(ds, idx);
    AssembledMore(fs, d, idx, fallback);
    r := t;
    if idx !in r.calls {
      r := Table(r.order + [idx], r.calls[idx := Call(FirstId(d, fallback(idx)), "", "")]);
    }
    var tc := r.calls[idx];
    ghost var c := tc;
    if d.id.Given? && d.id.text != "" { tc := tc.(id := Some(d.id.text)); }
    if d.name != "" { tc := tc.(name := tc.name + d.name); }
    if d.arguments != "" { tc := tc.(arguments := tc.arguments + d.arguments); }
    assert tc.name == c.name + d.name && tc.arguments == c.arguments + d.arguments;
    r := r.(calls := r.calls[idx := tc]);
    CollectedMore(t, d, fallback, ds, r);
  }

  lemma CollectedMore(t: Table, d: Delta, fallback: nat -> string, ds: seq<Delta>, r: Table)
    requires Collected(t, ds, fallback)
    requires r.order == if d.index in t.calls then t.order else t.order + [d.index]
    requires r.calls == t.calls[d.index := Assembled(Fragments(ds, d.index) + [d], d.index, fallback)]
    ensures Collected(r, ds + [d], fallback)
  {
    hide Assembled, Fragments, Arrivals, WellFormed;
    OneMore(ds, d);
    ArrivedIff(ds, d.index);
    WellFormedMore(t, d.index, Assembled(Fragments(ds, d.index) + [d], d.index, fallback), r);
  }

  lemma WellFormedMore(t: Table, index: nat, c: Call, r: Table)
    requires WellFormed(t) && r.calls == t.calls[index := c]
    requires r.order == if index in t.calls then t.order else t.order + [index]
    ensures WellFormed(r) && (index in t.order <==> index in t.calls)
  {
  }

  lemma OneMore(ds: seq<Delta>, d: Delta)
    ensures Arrivals(ds + [d]) == if d.index in Arrivals(ds) then Arrivals(ds) else Arrivals(ds) + [d.index]
    ensures forall k :: Fragments(ds + [d], k) == if k == d.index then Fragments(ds, k) + [d] else Fragments(ds, k)
  {
    assert (ds + [d])[..|ds|] == ds;
  }

  /** The fold over the stream. `fallback` names a call that came without an id. */
  method Collect(ds: seq<Delta>, fallback: nat -> string) returns (t: Table)
    ensures Collected(t, ds, fallback)
  {
    t := Table([], map[]);
    assert ds[..0] == [];
    for n := 0 to |ds|
      invariant Collected(t, ds[..n], fallback)
    {
      assert ds[..n + 1] == ds[..n] + [ds[n]];
      t := TakeDelta(t, ds[n], fallback, ds[..n]);
    }
    assert ds[..|ds|] == ds;
  }

  // ---- reassembly ----

  /** The stream carries exactly these calls: each call's fragments, taken in the
      order they arrive, spell it, its id comes first, and first fragments arrive
      in the order of the calls. */
  ghost predicate Carries(ds: seq<Delta>, calls: seq<Call>) {
    && Arrivals(ds) == seq(|calls|, i => i)
    && forall i | 0 <= i < |calls| :: Spells(Fragments(ds, i), calls[i])
  }

  ghost predicate Spells(fs: seq<Delta>, c: Call) {
    && |fs| > 0 && c.id.Some? && fs[0].id == Given(c.id.value)
    && (forall k | 0 < k < |fs| :: fs[k].id in {Absent, Null, Given(""), Given(c.id.value)})
    && Spelled(fs, NameOf) == c.name && Spelled(fs, ArgumentsOf) == c.arguments
  }

  lemma {:induction false} SpelledId(fs: seq<Delta>, id: string, fallback: string)
    requires |fs| > 0 && fs[0].id == Given(id) && forall k | 0 < k < |fs| :: fs[k].id in {Absent, Null, Given(""), Given(id)}
    ensures IdOf(fs, fallback) == Some(id)
  {
    if |fs| > 1 {
      assert fs[|fs| - 1].id in {Absent, Null, Given(""), Given(id)};
      SpelledId(fs[..|fs| - 1], id, fallback);
    }
  }

  /** However a list of calls is cut up and interleaved, collecting the stream
      gives the list back. */
  lemma Reassembles(ds: seq<Delta>, calls: seq<Call>, t: Table, fallback: nat -> string)
    requires Carries(ds, calls) && Collected(t, ds, fallback)
    ensures Values(t) == calls
  {
    forall i | 0 <= i < |calls| ensures Values(t)[i] == calls[i] {
      assert t.order[i] == i && i in t.order;
      assert Spells(Fragments(ds, i), calls[i]);
      SpelledId(Fragments(ds, i), calls[i].id.value, fallback(i));
    }
  }
}
