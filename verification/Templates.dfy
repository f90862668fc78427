/** Filling in agent templates: every variable's placeholder is replaced in turn in the
    prompt of every node. */
module Templates {
  import opened Options
  import opened Text

  datatype Binding = Binding(key: string, text: string)

  /** A node's prompt, if its configuration has one. */
  datatype Node = Node(id: string, prompt: Option<string>)

  datatype Template = Template(nodes: seq<Node>, variables: seq<Binding>)

  /** `s.replace(pat, val)`: from the left, without overlaps. */
  function Replace(s: string, pat: string, val: string): string
    requires pat != ""
  {
    if s == "" then ""
    else if pat <= s then val + Replace(s[|pat|..], pat, val)
    else [s[0]] + Replace(s[1..], pat, val)
  }

  function Placeholder(key: string): string {
    "{{" + (key + "}}")
  }

  // ---- the merged variables: a dictionary in insertion order ----

  function Lookup(vars: seq<Binding>, key: string): Option<string> {
    if vars == [] then None
    else if vars[0].key == key then Some(vars[0].text)
    else Lookup(vars[1..], key)
  }

  /** Sets a key where it is, or at the end. */
  function Set(vars: seq<Binding>, b: Binding): seq<Binding> {
    if vars == [] then [b]
    else if vars[0].key == b.key then [b] + vars[1..]
    else [vars[0]] + Set(vars[1..], b)
  }

  /** The caller's variables on top of the template's. */
  function Merge(base: seq<Binding>, extra: seq<Binding>): seq<Binding>
    decreases |extra|
  {
    if extra == [] then base else Merge(Set(base, extra[0]), extra[1..])
  }

  lemma {:induction false} SetLookup(vars: seq<Binding>, b: Binding, key: string)
    ensures Lookup(Set(vars, b), key) == if key == b.key then Some(b.text) else Lookup(vars, key)
  {
    if vars != [] && vars[0].key != b.key {
      SetLookup(vars[1..], b, key);
      assert Set(vars, b)[1..] == Set(vars[1..], b);
    }
  }

  ghost predicate Distinct(vars: seq<Binding>) {
    forall i, j | 0 <= i < j < |vars| :: vars[i].key != vars[j].key
  }

  lemma {:induction false} LookupNone(vars: seq<Binding>, key: string)
    ensures Lookup(vars, key) == None <==> forall i | 0 <= i < |vars| :: vars[i].key != key
  {
    if vars != [] {
      LookupNone(vars[1..], key);
      assert forall i | 0 < i < |vars| :: vars[i] == vars[1..][i - 1];
    }
  }

  /** What the caller gives wins; the template's defaults stand for the rest. */
  lemma {:induction false} MergeLookup(base: seq<Binding>, extra: seq<Binding>, key: string)
    requires Distinct(extra)
    ensures Lookup(Merge(base, extra), key) == if Lookup(extra, key).Some? then Lookup(extra, key) else Lookup(base, key)
    decreases |extra|
  {
    if extra != [] {
      MergeLookup(Set(base, extra[0]), extra[1..], key);
      SetLookup(base, extra[0], key);
      LookupNone(extra[1..], key);
    }
  }

  // ---- instantiation ----

  function Fill(prompt: string, vars: seq<Binding>): string {
    if vars == [] then prompt
    else Replace(Fill(prompt, vars[..|vars| - 1]), Placeholder(vars[|vars| - 1].key), vars[|vars| - 1].text)
  }

  /** The node with its prompt filled, if it has one. */
  ghost predicate IsFilled(n: Node, vars: seq<Binding>, r: Node) {
    && r.id == n.id && (n.prompt.None? ==> r.prompt.None?)
    && (n.prompt.Some? ==> r.prompt.Some? && r.prompt.value == Fill(n.prompt.value, vars))
  }

  /** Works on a copy of the template's nodes: the registry is only read. */
  method InstantiateTemplate(templates: map<string, Template>, id: string, variables: seq<Binding>) returns (r: Option<seq<Node>>)
    ensures r.None? <==> id !in templates
    ensures r.Some? ==> |r.value| == |templates[id].nodes| && forall i | 0 <= i < |r.value| ::
      IsFilled(templates[id].nodes[i], Merge(templates[id].variables, variables), r.value[i])
  {
    if id !in templates { return None; }
    var nodes := templates[id].nodes;
    var merged := Merge(templates[id].variables, variables);
    for i := 0 to |nodes|
      invariant |nodes| == |templates[id].nodes|
      invariant forall k | 0 <= k < i :: IsFilled(templates[id].nodes[k], merged, nodes[k])
      invariant forall k | i <= k < |nodes| :: nodes[k] == templates[id].nodes[k]
    {
      if nodes[i].prompt.Some? {
        var prompt := nodes[i].prompt.value;
        for j := 0 to |merged|
          invariant prompt == Fill(nodes[i].prompt.value, merged[..j])
        {
          assert merged[..j + 1][..j] == merged[..j];
          prompt := Replace(prompt, Placeholder(merged[j].key), merged[j].text);
        }
        assert merged[..|merged|] == merged;
        nodes := nodes[i := nodes[i].(prompt := Some(prompt))];
      }
    }
    return Some(nodes);
  }

  // ---- prompts as text with holes ----

  datatype Piece = Literal(text: string) | Hole(key: string)

  predicate BraceFree(s: string) {
    forall i | 0 <= i < |s| :: s[i] != '{' && s[i] != '}'
  }

  predicate Plain(ps: seq<Piece>) {
    forall i | 0 <= i < |ps| :: if ps[i].Literal? then BraceFree(ps[i].text) else BraceFree(ps[i].key)
  }

  function PrintPiece(p: Piece): string {
    if p.Literal? then p.text else Placeholder(p.key)
  }

  function Print(ps: seq<Piece>): string {
    if ps == [] then "" else PrintPiece(ps[0]) + Print(ps[1..])
  }

  /** The pieces with every hole of one key filled. */
  function Subst(ps: seq<Piece>, key: string, value: seq<Piece>): seq<Piece> {
    if ps == [] then []
    else (if ps[0] == Hole(key) then value else [ps[0]]) + Subst(ps[1..], key, value)
  }

  /** A variable whose value is itself text with holes. */
  datatype Variable = Variable(key: string, value: seq<Piece>)

  function Texts(vars: seq<Variable>): seq<Binding> {
    seq(|vars|, i requires 0 <= i < |vars| => Binding(vars[i].key, Print(vars[i].value)))
  }

  function ValueOf(vars: seq<Variable>, key: string): Option<seq<Piece>> {
    if vars == [] then None
    else if vars[0].key == key then Some(vars[0].value)
    else ValueOf(vars[1..], key)
  }

  /** All holes filled at once: those with a value, and no others. */
  function Simultaneous(ps: seq<Piece>, vars: seq<Variable>): seq<Piece> {
    if ps == [] then []
    else
      var v := if ps[0].Hole? then ValueOf(vars, ps[0].key) else None;
      (if v.Some? then v.value else [ps[0]]) + Simultaneous(ps[1..], vars)
  }

  /** Text that does not open a brace is passed over. */
  lemma {:induction false} SkipText(t: string, rest: string, pat: string, val: string)
    requires pat != "" && pat[0] == '{' && forall i | 0 <= i < |t| :: t[i] != '{'
    ensures Replace(t + rest, pat, val) == t + Replace(rest, pat, val)
  {
    if t == "" {
      assert t + rest == rest;
    } else {
      SkipText(t[1..], rest, pat, val);
      assert (t + rest)[1..] == t[1..] + rest;
      assert (t + rest)[0] == t[0];
    }
  }

  /** Placeholders of different keys do not begin alike. */
  lemma OtherPlaceholder(key: string, other: string, rest: string)
    requires BraceFree(key) && BraceFree(other) && key != other
    ensures !(Placeholder(key) <= Placeholder(other) + rest)
  {
    var pat, s := Placeholder(key), Placeholder(other) + rest;
    var n := if |key| < |other| then |key| else |other|;
    if forall i | 0 <= i < n :: key[i] == other[i] {
      assert |key| == |other| ==> key == other;
      assert pat[2 + n] == (if n < |key| then key[n] else '}');
      assert s[2 + n] == (if n < |other| then other[n] else '}');
    } else {
      var i :| 0 <= i < n && key[i] != other[i];
      assert pat[2 + i] == key[i] && s[2 + i] == other[i];
    }
  }

  lemma SkipPlaceholder(key: string, other: string, rest: string, val: string)
    requires BraceFree(key) && BraceFree(other) && key != other
    ensures Replace(Placeholder(other) + rest, Placeholder(key), val) == Placeholder(other) + Replace(rest, Placeholder(key), val)
  {
    var pat, tail := Placeholder(key), other + "}}";
    var s := Placeholder(other) + rest;
    OtherPlaceholder(key, other, rest);
    assert s[1..] == "{" + (tail + rest) && s[0] == '{';
    var inner := "{" + (tail + rest);
    assert pat[1] == '{' && inner[1] != '{';
    assert inner[1..] == tail + rest;
    SkipText(tail, rest, pat, val);
    assert Placeholder(other) == "{" + ("{" + tail);
  }

  lemma FillPlaceholder(key: string, rest: string, val: string)
    ensures Replace(Placeholder(key) + rest, Placeholder(key), val) == val + Replace(rest, Placeholder(key), val)
  {
    assert Placeholder(key) <= Placeholder(key) + rest;
    assert (Placeholder(key) + rest)[|Placeholder(key)|..] == rest;
  }

  lemma {:induction false} PrintAppend(a: seq<Piece>, b: seq<Piece>)
    ensures Print(a + b) == Print(a) + Print(b)
  {
    if a == [] {
      assert a + b == b;
    } else {
      assert (a + b)[1..] == a[1..] + b;
      PrintAppend(a[1..], b);
    }
  }

  /** One replacement fills the holes of its key and touches nothing else. */
  lemma {:induction false} ReplaceFills(ps: seq<Piece>, key: string, value: seq<Piece>)
    requires Plain(ps) && BraceFree(key)
    ensures Replace(Print(ps), Placeholder(key), Print(value)) == Print(Subst(ps, key, value))
  {
    hide Replace, Placeholder, BraceFree;
    var val := Print(value);
    PlaceholderOpens(key);
    if ps == [] {
      ReplaceEmpty(key, val);
    } else {
      var rest := Print(ps[1..]);
      ReplaceFills(ps[1..], key, value);
      PrintAppend(if ps[0] == Hole(key) then value else [ps[0]], Subst(ps[1..], key, value));
      PrintOne(ps[0]);
      match ps[0]
      case Literal(t) =>
        NoBrace(t);
        SkipText(t, rest, Placeholder(key), val);
      case Hole(other) =>
        if other == key { FillPlaceholder(key, rest, val); } else { SkipPlaceholder(key, other, rest, val); }
    }
  }

  lemma NoBrace(t: string)
    requires BraceFree(t)
    ensures forall i | 0 <= i < |t| :: t[i] != '{'
  {
  }

  lemma PrintOne(p: Piece)
    ensures Print([p]) == PrintPiece(p)
  {
    assert [p][1..] == [];
  }

  lemma PlaceholderOpens(key: string)
    ensures Placeholder(key) != "" && Placeholder(key)[0] == '{'
  {
  }

  lemma ReplaceEmpty(key: string, val: string)
    ensures Replace("", Placeholder(key), val) == ""
  {
  }

  ghost predicate PlainVars(vars: seq<Variable>) {
    forall v | v in vars :: BraceFree(v.key) && Plain(v.value)
  }

  lemma {:induction false} SubstPlain(ps: seq<Piece>, key: string, value: seq<Piece>)
    requires Plain(ps) && Plain(value)
    ensures Plain(Subst(ps, key, value))
  {
    hide BraceFree;
    if ps != [] { SubstPlain(ps[1..], key, value); }
  }

  lemma {:induction false} SubstAppend(a: seq<Piece>, b: seq<Piece>, key: string, value: seq<Piece>)
    ensures Subst(a + b, key, value) == Subst(a, key, value) + Subst(b, key, value)
  {
    if a == [] {
      assert a + b == b;
    } else {
      assert (a + b)[1..] == a[1..] + b;
      SubstAppend(a[1..], b, key, value);
    }
  }

  /** Filling takes the first variable first. */
  lemma {:induction false} FillFirst(s: string, b: Binding, rest: seq<Binding>)
    ensures Fill(s, [b] + rest) == Fill(Replace(s, Placeholder(b.key), b.text), rest)
  {
    hide Replace;
    if rest == [] {
      assert [b] + rest == [b] && [b][..0] == [];
      assert Fill(s, [b]) == Replace(Fill(s, []), Placeholder(b.key), b.text);
    } else {
      assert ([b] + rest)[..|rest|] == [b] + rest[..|rest| - 1];
      FillFirst(s, b, rest[..|rest| - 1]);
    }
  }

  lemma {:induction false} FillAppend(s: string, a: seq<Binding>, b: seq<Binding>)
    ensures Fill(s, a + b) == Fill(Fill(s, a), b)
  {
    hide Replace;
    if b == [] {
      assert a + b == a;
    } else {
      assert (a + b)[..|a + b| - 1] == a + b[..|b| - 1];
      FillAppend(s, a, b[..|b| - 1]);
    }
  }

  lemma FillStep(ps: seq<Piece>, vars: seq<Variable>)
    requires Plain(ps) && PlainVars(vars) && vars != []
    ensures var next := Subst(ps, vars[0].key, vars[0].value);
      Plain(next) && PlainVars(vars[1..]) && Fill(Print(ps), Texts(vars)) == Fill(Print(next), Texts(vars[1..]))
  {
    hide Replace, Fill, BraceFree, Plain, Print;
    var v := vars[0];
    assert v in vars;
    assert Texts(vars) == [Binding(v.key, Print(v.value))] + Texts(vars[1..]);
    FillFirst(Print(ps), Binding(v.key, Print(v.value)), Texts(vars[1..]));
    ReplaceFills(ps, v.key, v.value);
    SubstPlain(ps, v.key, v.value);
  }

  /** Parts of a prompt are filled apart. */
  lemma {:induction false} FillConcat(a: seq<Piece>, b: seq<Piece>, vars: seq<Variable>)
    requires Plain(a) && Plain(b) && PlainVars(vars)
    ensures Fill(Print(a + b), Texts(vars)) == Fill(Print(a), Texts(vars)) + Fill(Print(b), Texts(vars))
    decreases |vars|
  {
    hide Replace, BraceFree, Print;
    if vars == [] {
      PrintAppend(a, b);
    } else {
      hide Fill;
      var v := vars[0];
      FillStep(a, vars);
      FillStep(b, vars);
      FillStep(a + b, vars);
      SubstAppend(a, b, v.key, v.value);
      FillConcat(Subst(a, v.key, v.value), Subst(b, v.key, v.value), vars[1..]);
    }
  }

  /** Filling a hole with its own placeholder, or with nothing to fill, changes nothing. */
  lemma {:induction false} SubstIdle(ps: seq<Piece>, key: string, value: seq<Piece>)
    requires Hole(key) in ps ==> Print(value) == Placeholder(key)
    ensures Print(Subst(ps, key, value)) == Print(ps)
  {
    hide Placeholder;
    if ps != [] {
      assert ps == [ps[0]] + ps[1..];
      SubstIdle(ps[1..], key, value);
      PrintAppend(if ps[0] == Hole(key) then value else [ps[0]], Subst(ps[1..], key, value));
      PrintOne(ps[0]);
    }
  }

  lemma {:induction false} FillIdle(ps: seq<Piece>, vars: seq<Variable>)
    requires Plain(ps) && PlainVars(vars)
    requires forall v | v in vars && Hole(v.key) in ps :: Print(v.value) == Placeholder(v.key)
    ensures Fill(Print(ps), Texts(vars)) == Print(ps)
    decreases |vars|
  {
    hide Replace, BraceFree, Print, Plain, Placeholder;
    if vars != [] {
      var v := vars[0];
      assert v in vars;
      FillStep(ps, vars);
      SubstIdle(ps, v.key, v.value);
      FillIdle(ps, vars[1..]);
    }
  }

  // ---- when the order of the variables matters ----

  ghost predicate DistinctKeys(vars: seq<Variable>) {
    forall i, j | 0 <= i < j < |vars| :: vars[i].key != vars[j].key
  }

  /** No value has a hole of another variable, unless that one stands for its own
      placeholder. */
  ghost predicate Harmless(vars: seq<Variable>) {
    forall u, v | u in vars && v in vars && u.key != v.key && Hole(v.key) in u.value :: Print(v.value) == Placeholder(v.key)
  }

  lemma {:induction false} ValueIs(vars: seq<Variable>, key: string) returns (i: nat)
    ensures i <= |vars| && (forall j | 0 <= j < i :: vars[j].key != key)
    ensures i < |vars| ==> vars[i].key == key && ValueOf(vars, key) == Some(vars[i].value)
    ensures i == |vars| ==> ValueOf(vars, key) == None
  {
    if vars == [] || vars[0].key == key {
      i := 0;
    } else {
      var k := ValueIs(vars[1..], key);
      i := k + 1;
      forall j | 0 <= j < i ensures vars[j].key != key {
        if j > 0 { assert vars[j] == vars[1..][j - 1]; }
      }
    }
  }

  /** A hole ends as its value, filled only by the variables that come after its own. */
  lemma FillHole(vars: seq<Variable>, i: nat)
    requires PlainVars(vars) && i < |vars| && forall j | 0 <= j < i :: vars[j].key != vars[i].key
    ensures Fill(Placeholder(vars[i].key), Texts(vars)) == Fill(Print(vars[i].value), Texts(vars[i + 1..]))
  {
    hide Replace, BraceFree, Fill, Placeholder;
    var key, hole := vars[i].key, [Hole(vars[i].key)];
    assert vars[i] in vars;
    PrintOne(hole[0]);
    assert Texts(vars) == Texts(vars[..i]) + Texts(vars[i..]);
    FillAppend(Print(hole), Texts(vars[..i]), Texts(vars[i..]));
    FillIdle(hole, vars[..i]);
    FillStep(hole, vars[i..]);
    assert hole[1..] == [];
    assert Subst(hole, key, vars[i].value) == vars[i].value + [] == vars[i].value;
    assert vars[i..][1..] == vars[i + 1..];
  }

  /** Replacing the placeholders one variable after the other is filling all holes at
      once, if the values are harmless. */
  lemma {:induction false} SequentialIsSimultaneous(ps: seq<Piece>, vars: seq<Variable>)
    requires Plain(ps) && PlainVars(vars) && DistinctKeys(vars) && Harmless(vars)
    ensures Fill(Print(ps), Texts(vars)) == Print(Simultaneous(ps, vars))
  {
    hide Replace, BraceFree, Fill;
    if ps == [] {
      FillIdle(ps, vars);
    } else {
      assert ps == [ps[0]] + ps[1..];
      FillConcat([ps[0]], ps[1..], vars);
      SequentialIsSimultaneous(ps[1..], vars);
      PieceIsFilled(ps[0], vars);
      PrintAppend(Simultaneous([ps[0]], vars), Simultaneous(ps[1..], vars));
      FirstPiece(ps, vars);
    }
  }

  lemma FirstPiece(ps: seq<Piece>, vars: seq<Variable>)
    requires ps != []
    ensures Simultaneous(ps, vars) == Simultaneous([ps[0]], vars) + Simultaneous(ps[1..], vars)
  {
    assert [ps[0]][1..] == [];
    var v := if ps[0].Hole? then ValueOf(vars, ps[0].key) else None;
    var first := if v.Some? then v.value else [ps[0]];
    assert Simultaneous([ps[0]], vars) == first + [] == first;
  }

  lemma PieceIsFilled(p: Piece, vars: seq<Variable>)
    requires Plain([p]) && PlainVars(vars) && DistinctKeys(vars) && Harmless(vars)
    ensures Fill(Print([p]), Texts(vars)) == Print(Simultaneous([p], vars))
  {
    hide Replace, BraceFree, Fill, Placeholder;
    assert [p][1..] == [];
    if p.Literal? {
      FillIdle([p], vars);
      assert Simultaneous([p], vars) == [p];
    } else {
      var i := ValueIs(vars, p.key);
      PrintOne(p);
      if i < |vars| {
        FillHole(vars, i);
        assert vars[i] in vars;
        forall v | v in vars[i + 1..] && Hole(v.key) in vars[i].value ensures Print(v.value) == Placeholder(v.key) {
          var j :| 0 <= j < |vars[i + 1..]| && vars[i + 1..][j] == v;
          assert vars[i + 1 + j] == v && v.key != vars[i].key;
        }
        FillIdle(vars[i].value, vars[i + 1..]);
        assert Simultaneous([p], vars) == vars[i].value + [] == vars[i].value;
      } else {
        FillIdle([p], vars);
        assert Simultaneous([p], vars) == [p];
      }
    }
  }

  /** The same variables in some order. */
  ghost predicate Orders(one: seq<Variable>, vars: seq<Variable>) {
    DistinctKeys(one) && forall v :: v in one <==> v in vars
  }

  lemma OrderedValue(one: seq<Variable>, vars: seq<Variable>, key: string)
    requires Orders(one, vars) && DistinctKeys(vars)
    ensures ValueOf(one, key) == ValueOf(vars, key)
  {
    var i := ValueIs(one, key);
    var j := ValueIs(vars, key);
    if i < |one| {
      assert one[i] in vars;
      var k :| 0 <= k < |vars| && vars[k] == one[i];
      assert k == j;
    } else {
      forall k | 0 <= k < |vars| ensures vars[k].key != key { assert vars[k] in one; }
    }
  }

  lemma {:induction false} SameFilling(ps: seq<Piece>, one: seq<Variable>, vars: seq<Variable>)
    requires Orders(one, vars) && DistinctKeys(vars)
    ensures Simultaneous(ps, one) == Simultaneous(ps, vars)
  {
    hide Orders, DistinctKeys;
    if ps != [] {
      SameFilling(ps[1..], one, vars);
      if ps[0].Hole? { OrderedValue(one, vars, ps[0].key); }
    }
  }

  /** All orders of harmless variables fill a prompt alike. */
  lemma AnyOrder(ps: seq<Piece>, one: seq<Variable>, vars: seq<Variable>)
    requires Plain(ps) && PlainVars(vars) && DistinctKeys(vars) && Harmless(vars) && Orders(one, vars)
    ensures Fill(Print(ps), Texts(one)) == Print(Simultaneous(ps, vars))
  {
    hide Print, Plain, BraceFree, DistinctKeys;
    SequentialIsSimultaneous(ps, one);
    SameFilling(ps, one, vars);
  }

  lemma {:induction false} SubstLength(ps: seq<Piece>, key: string, value: seq<Piece>)
    ensures |Print(value)| > |Placeholder(key)| && Hole(key) in ps ==> |Print(Subst(ps, key, value))| > |Print(ps)|
    ensures |Print(value)| < |Placeholder(key)| && Hole(key) in ps ==> |Print(Subst(ps, key, value))| < |Print(ps)|
    ensures |Print(value)| >= |Placeholder(key)| ==> |Print(Subst(ps, key, value))| >= |Print(ps)|
    ensures |Print(value)| <= |Placeholder(key)| ==> |Print(Subst(ps, key, value))| <= |Print(ps)|
  {
    hide Placeholder;
    if ps != [] {
      assert ps == [ps[0]] + ps[1..];
      SubstLength(ps[1..], key, value);
      PrintAppend(if ps[0] == Hole(key) then value else [ps[0]], Subst(ps[1..], key, value));
      PrintOne(ps[0]);
    }
  }

  /** Filling a hole with anything but its own placeholder changes the text. */
  lemma {:induction false} SubstDiffers(ps: seq<Piece>, key: string, value: seq<Piece>)
    requires Hole(key) in ps && Print(value) != Placeholder(key)
    ensures Print(Subst(ps, key, value)) != Print(ps)
  {
    hide Placeholder;
    SubstLength(ps, key, value);
    if |Print(value)| == |Placeholder(key)| {
      var first := if ps[0] == Hole(key) then value else [ps[0]];
      PrintAppend(first, Subst(ps[1..], key, value));
      PrintOne(ps[0]);
      SubstLength(ps[1..], key, value);
      assert ps == [ps[0]] + ps[1..];
      var n := |PrintPiece(ps[0])|;
      assert |Print(first)| == n;
      if ps[0] == Hole(key) {
        assert Print(Subst(ps, key, value))[..n] == Print(value) && Print(ps)[..n] == Placeholder(key);
      } else {
        SubstDiffers(ps[1..], key, value);
        assert Print(Subst(ps, key, value))[n..] == Print(Subst(ps[1..], key, value)) && Print(ps)[n..] == Print(ps[1..]);
      }
    }
  }

  /** The variables with those at i and j moved to the end. */
  function LastTwo(vars: seq<Variable>, i: nat, j: nat): seq<Variable>
    requires i < |vars| && j < |vars| && i != j
  {
    Others(vars, if i < j then i else j, if i < j then j else i) + [vars[i], vars[j]]
  }

  function Others(vars: seq<Variable>, a: nat, b: nat): seq<Variable>
    requires a < b < |vars|
  {
    vars[..a] + vars[a + 1..b] + vars[b + 1..]
  }

  lemma OthersAre(vars: seq<Variable>, a: nat, b: nat)
    requires DistinctKeys(vars) && a < b < |vars|
    ensures DistinctKeys(Others(vars, a, b))
    ensures forall v :: v in vars <==> v in Others(vars, a, b) || v == vars[a] || v == vars[b]
    ensures forall v | v in Others(vars, a, b) :: v.key != vars[a].key && v.key != vars[b].key
  {
    var rest := Others(vars, a, b);
    forall k | 0 <= k < |rest| ensures rest[k] == vars[if k < a then k else if k < b - 1 then k + 1 else k + 2] { }
    assert vars == vars[..a] + [vars[a]] + vars[a + 1..b] + [vars[b]] + vars[b + 1..];
  }

  lemma LastTwoOrders(vars: seq<Variable>, i: nat, j: nat)
    requires DistinctKeys(vars) && i < |vars| && j < |vars| && i != j
    ensures Orders(LastTwo(vars, i, j), vars)
  {
    hide Others;
    var a, b := if i < j then i else j, if i < j then j else i;
    OthersAre(vars, a, b);
    var rest, all := Others(vars, a, b), LastTwo(vars, i, j);
    forall k | 0 <= k < |rest| ensures all[k] == rest[k] && all[k] in rest { }
    forall v ensures v in all <==> v in rest || v == vars[i] || v == vars[j] { }
  }

  /** With u before v at the end, a hole of u ends as the value of u with v filled in;
      with v before u, as the value of u as it is. */
  lemma LastTwoFill(vars: seq<Variable>, i: nat, j: nat)
    requires PlainVars(vars) && DistinctKeys(vars) && i < |vars| && j < |vars| && i != j
    ensures Fill(Placeholder(vars[i].key), Texts(LastTwo(vars, i, j))) == Print(Subst(vars[i].value, vars[j].key, vars[j].value))
    ensures Fill(Placeholder(vars[i].key), Texts(LastTwo(vars, j, i))) == Print(vars[i].value)
  {
    hide Replace, BraceFree, Placeholder, Plain;
    var n := |vars|;
    LastTwoOrders(vars, i, j);
    LastTwoOrders(vars, j, i);
    var one, two := LastTwo(vars, i, j), LastTwo(vars, j, i);
    assert PlainVars(one) && PlainVars(two);
    FillHole(one, n - 2);
    assert one[n - 1..] == [vars[j]];
    assert vars[i] in vars && vars[j] in vars;
    FillStep(vars[i].value, [vars[j]]);
    FillHole(two, n - 1);
    assert two[n..] == [];
    assert Texts([]) == [];
  }

  /** All orders of the variables agree on every prompt exactly when no value has a hole
      of another variable that stands for anything but that placeholder. */
  lemma OrderIrrelevantIff(vars: seq<Variable>)
    requires PlainVars(vars) && DistinctKeys(vars)
    ensures (forall ps, one, two | Plain(ps) && Orders(one, vars) && Orders(two, vars) ::
               Fill(Print(ps), Texts(one)) == Fill(Print(ps), Texts(two)))
      <==> Harmless(vars)
  {
    hide Fill, Orders, Placeholder, BraceFree, Simultaneous, Subst, LastTwo, Texts;
    if Harmless(vars) {
      forall ps, one, two | Plain(ps) && Orders(one, vars) && Orders(two, vars)
        ensures Fill(Print(ps), Texts(one)) == Fill(Print(ps), Texts(two))
      {
        AnyOrder(ps, one, vars);
        AnyOrder(ps, two, vars);
      }
    } else {
      var u, v :| u in vars && v in vars && u.key != v.key && Hole(v.key) in u.value && Print(v.value) != Placeholder(v.key);
      var i :| 0 <= i < |vars| && vars[i] == u;
      var j :| 0 <= j < |vars| && vars[j] == v;
      LastTwoOrders(vars, i, j);
      LastTwoOrders(vars, j, i);
      LastTwoFill(vars, i, j);
      SubstDiffers(u.value, v.key, v.value);
      var ps := [Hole(u.key)];
      PrintOne(ps[0]);
      assert Plain(ps);
      assert Fill(Print(ps), Texts(LastTwo(vars, i, j))) != Fill(Print(ps), Texts(LastTwo(vars, j, i)));
    }
  }

  // ---- what remains ----

  lemma {:induction false} FilledPlain(ps: seq<Piece>, vars: seq<Variable>)
    requires Plain(ps) && PlainVars(vars)
    ensures Plain(Simultaneous(ps, vars))
  {
    hide BraceFree;
    if ps != [] {
      FilledPlain(ps[1..], vars);
      if ps[0].Hole? {
        var i := ValueIs(vars, ps[0].key);
        assert i < |vars| ==> vars[i] in vars;
      }
    }
  }

  /** A hole of a variable that was given is left only by a value that holds it. */
  lemma {:induction false} HolesLeft(ps: seq<Piece>, vars: seq<Variable>, key: string)
    requires ValueOf(vars, key).Some? && forall v | v in vars :: Hole(key) !in v.value
    ensures Hole(key) !in Simultaneous(ps, vars)
  {
    if ps != [] {
      HolesLeft(ps[1..], vars, key);
      if ps[0].Hole? {
        var i := ValueIs(vars, ps[0].key);
        assert i < |vars| ==> vars[i] in vars;
      }
    }
  }

  /** No placeholder of a variable that was given remains, if no value brings it back. */
  lemma NoneRemains(ps: seq<Piece>, vars: seq<Variable>, key: string, i: int)
    requires Plain(ps) && PlainVars(vars) && DistinctKeys(vars) && Harmless(vars)
    requires BraceFree(key) && ValueOf(vars, key).Some? && forall v | v in vars :: Hole(key) !in v.value
    ensures !OccursAt(Fill(Print(ps), Texts(vars)), Placeholder(key), i)
  {
    hide Fill, Simultaneous, Plain, PlainVars, Harmless, DistinctKeys, BraceFree;
    SequentialIsSimultaneous(ps, vars);
    FilledPlain(ps, vars);
    HolesLeft(ps, vars, key);
    var done := Simultaneous(ps, vars);
    SubstIdle(done, key, []);
    ReplaceFills(done, key, []);
    if OccursAt(Print(done), Placeholder(key), i) { ReplaceShortens(Print(done), Placeholder(key), i); }
  }

  /** A placeholder nobody fills survives, wherever it stands, whatever the values. */
  lemma UnknownSurvives(before: seq<Piece>, key: string, after: seq<Piece>, vars: seq<Variable>)
    requires Plain(before) && Plain(after) && BraceFree(key) && PlainVars(vars) && forall v | v in vars :: v.key != key
    ensures Fill(Print(before + [Hole(key)] + after), Texts(vars))
      == Fill(Print(before), Texts(vars)) + Placeholder(key) + Fill(Print(after), Texts(vars))
  {
    hide Fill, Placeholder, BraceFree;
    FillConcat(before + [Hole(key)], after, vars);
    FillConcat(before, [Hole(key)], vars);
    FillIdle([Hole(key)], vars);
    PrintOne(Hole(key));
  }

  lemma OccursFirst(s: string, pat: string)
    ensures OccursAt(s, pat, 0) ==> pat <= s
  {
  }

  lemma {:induction false} ReplaceShortens(s: string, pat: string, i: int)
    requires pat != "" && OccursAt(s, pat, i)
    ensures |Replace(s, pat, "")| < |s|
  {
    if pat <= s {
      ReplaceNoLonger(s[|pat|..], pat);
    } else {
      OccursFirst(s, pat);
      assert s[1..][i - 1..i - 1 + |pat|] == s[i..i + |pat|];
      ReplaceShortens(s[1..], pat, i - 1);
    }
  }

  lemma {:induction false} ReplaceNoLonger(s: string, pat: string)
    requires pat != ""
    ensures |Replace(s, pat, "")| <= |s|
  {
    if s != "" {
      if pat <= s { ReplaceNoLonger(s[|pat|..], pat); } else { ReplaceNoLonger(s[1..], pat); }
    }
  }

  lemma FillTwo(s: string, x: Binding, y: Binding)
    ensures Fill(s, [x, y]) == Replace(Replace(s, Placeholder(x.key), x.text), Placeholder(y.key), y.text)
  {
    assert [x, y][..1] == [x] && [x][..0] == [];
    assert Fill(s, [x]) == Replace(s, Placeholder(x.key), x.text);
  }

  /** The smallest case: one value is another variable's placeholder. */
  lemma BracesInValuesMatter(x: string)
    requires x != "{{b}}"
    ensures var a, b := Binding("a", "{{b}}"), Binding("b", x);
      Fill("{{a}}", [a, b]) == x && Fill("{{a}}", [b, a]) == "{{b}}" && Fill("{{a}}", [a, b]) != Fill("{{a}}", [b, a])
  {
    hide Replace;
    var a, b := Binding("a", "{{b}}"), Binding("b", x);
    FillTwo("{{a}}", a, b);
    FillTwo("{{a}}", b, a);
    FillPlaceholder("a", "", "{{b}}");
    FillPlaceholder("b", "", x);
    SkipPlaceholder("b", "a", "", x);
    assert Placeholder("a") == "{{a}}" && Placeholder("b") == "{{b}}";
    assert Placeholder("a") + "" == "{{a}}" && Placeholder("b") + "" == "{{b}}";
    NothingLeft("{{a}}", "{{b}}");
    NothingLeft("{{b}}", x);
    NothingLeft("{{b}}", "{{b}}");
    assert x + "" == x && "{{b}}" + "" == "{{b}}";
  }

  lemma NothingLeft(pat: string, val: string)
    requires pat != ""
    ensures Replace("", pat, val) == ""
  {
  }
}
