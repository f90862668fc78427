/** Reconciling one agent's capability tools with the shared tool registry. */
module ToolSync {
  import opened Text

  /** A capability of a manifest. `schema` is None if neither the manifest nor the
      capability registry describes it. */
  datatype Capability = Capability(id: string, schema: Schema)
  datatype Schema = Unknown | Known(params: string)

  datatype Tool = Tool(agent: string, capability: string, params: string)

  // ---- names ----

  predicate IsAlnum(c: char) {
    'a' <= c <= 'z' || 'A' <= c <= 'Z' || '0' <= c <= '9'
  }

  function Alnum(s: string): (r: string)
    ensures forall i | 0 <= i < |r| :: IsAlnum(r[i])
  {
    if s == "" then "" else (if IsAlnum(s[0]) then [s[0]] else []) + Alnum(s[1..])
  }

  /** The first eight alphanumeric characters of an agent's id. */
  function Key(agent: string): string {
    var a := Alnum(agent);
    if |a| > 8 then a[..8] else a
  }

  function SaneName(capability: string): string {
    seq(|capability|, i requires 0 <= i < |capability| => if IsAlnum(capability[i]) || capability[i] == '_' then capability[i] else '_')
  }

  function Prefix(agent: string): string {
    "bt_" + Key(agent) + "_"
  }

  function BridgeName(agent: string, capability: string): string {
    Prefix(agent) + SaneName(capability)
  }

  /** The name lies under the agent's prefix. */
  predicate Owns(agent: string, name: string) {
    Prefix(agent) <= name
  }

  lemma OwnedChars(agent: string, name: string, i: nat)
    requires Owns(agent, name)
    ensures i <= |Key(agent)| ==> i + 3 < |name|
    ensures i < |Key(agent)| ==> name[3 + i] == Key(agent)[i] && IsAlnum(name[3 + i])
    ensures i == |Key(agent)| ==> name[3 + i] == '_'
  {
    var p := Prefix(agent);
    assert i < |p| ==> name[i] == p[i];
    assert i <= |Key(agent)| ==> name[3 + i] == p[3 + i];
  }

  /** No name lies under the prefixes of two agents, unless they share a key. */
  lemma PrefixesDisjoint(a: string, b: string, name: string)
    requires Owns(a, name) && Owns(b, name)
    ensures Key(a) == Key(b)
  {
    hide Key, Owns;
    var ka, kb := Key(a), Key(b);
    OwnedChars(a, name, |ka|);
    OwnedChars(a, name, |kb|);
    OwnedChars(b, name, |ka|);
    OwnedChars(b, name, |kb|);
    assert |ka| == |kb|;
    forall i | 0 <= i < |ka| ensures ka[i] == kb[i] {
      OwnedChars(a, name, i);
      OwnedChars(b, name, i);
    }
  }

  /** Tools of two agents can bear one name exactly when their keys agree. */
  lemma NamesMeetIff(a: string, b: string)
    ensures (exists c, d :: BridgeName(a, c) == BridgeName(b, d)) <==> Key(a) == Key(b)
  {
    if Key(a) == Key(b) {
      assert BridgeName(a, "") == BridgeName(b, "");
    }
    forall c, d | BridgeName(a, c) == BridgeName(b, d) ensures Key(a) == Key(b) {
      assert Owns(a, BridgeName(a, c)) && Owns(b, BridgeName(b, d));
      PrefixesDisjoint(a, b, BridgeName(a, c));
    }
  }

  lemma AlnumIs(c: char)
    ensures IsAlnum(c) <==> LetterOrDigit(c)
  {
    SmallLetters(c);
    Capitals(c);
    Digits(c);
  }

  lemma {:induction false} AlnumAdds(a: string, b: string)
    ensures Alnum(a + b) == Alnum(a) + Alnum(b)
  {
    if a == "" {
      assert a + b == b;
    } else {
      assert (a + b)[1..] == a[1..] + b;
      AlnumAdds(a[1..], b);
    }
  }

  /** A key is made of the id's letters and digits in order, the first eight of them if
      there are more; what follows the eighth does not matter. */
  lemma KeyIs(a: string, c: char, b: string)
    ensures Key("") == ""
    ensures |Key(a)| <= 8 && (|Key(a)| == 8 ==> Key(a + [c] + b) == Key(a))
    ensures |Key(a)| < 8 ==> Key(a + [c]) == Key(a) + if LetterOrDigit(c) then [c] else []
  {
    AlnumIs(c);
    AlnumAdds(a, [c]);
    AlnumAdds(a + [c], b);
    assert Alnum([c]) == if IsAlnum(c) then [c] else [] by { assert [c][1..] == ""; }
  }

  /** A tool's name is its capability's, character by character, with an underscore for
      whatever is no letter, digit or underscore, after the prefix with the agent's key. */
  lemma NameIs(agent: string, capability: string)
    ensures var name := BridgeName(agent, capability);
      && |name| == 4 + |Key(agent)| + |capability| && name[..4 + |Key(agent)|] == "bt_" + Key(agent) + "_"
      && forall i | 0 <= i < |capability| :: name[4 + |Key(agent)| + i]
           == if LetterOrDigit(capability[i]) then capability[i] else '_'
  {
    hide SaneName, Key, LetterOrDigit;
    SaneIs(capability);
    var prefix, sane := Prefix(agent), SaneName(capability);
    assert |prefix| == 4 + |Key(agent)|;
    forall i | 0 <= i < |capability| ensures (prefix + sane)[|prefix| + i] == sane[i] { }
  }

  lemma SaneIs(s: string)
    ensures |SaneName(s)| == |s| && forall i | 0 <= i < |s| :: SaneName(s)[i] == if LetterOrDigit(s[i]) then s[i] else '_'
  {
    hide LetterOrDigit;
    forall i | 0 <= i < |s| { AlnumIs(s[i]); }
  }

  // ---- one reconciliation ----

  /** The registry's part: which registrations and removals it refuses, and whether it
      can list its tools. */
  datatype Answers = Answers(refuses: string -> bool, keeps: string -> bool, lists: bool)

  function Wanted(agent: string, caps: seq<Capability>): set<string> {
    set c | c in caps && c.id != "" :: BridgeName(agent, c.id)
  }

  predicate Registers(agent: string, c: Capability, ans: Answers) {
    c.id != "" && c.schema.Known? && !ans.refuses(BridgeName(agent, c.id))
  }

  /** The tools a manifest registers; of two of one name, the later. */
  function Additions(agent: string, caps: seq<Capability>, ans: Answers): map<string, Tool> {
    if caps == [] then map[]
    else
      var c := caps[|caps| - 1];
      var rest := Additions(agent, caps[..|caps| - 1], ans);
      if Registers(agent, c, ans) then rest[BridgeName(agent, c.id) := Tool(agent, c.id, c.schema.params)] else rest
  }

  /** The names registered, and the capabilities passed over for want of a schema or
      because the registry refuses them, in order, one for each capability that has an id. */
  function Accepted(agent: string, caps: seq<Capability>, ans: Answers): seq<string> {
    if caps == [] then []
    else
      var c := caps[|caps| - 1];
      Accepted(agent, caps[..|caps| - 1], ans) + (if Registers(agent, c, ans) then [BridgeName(agent, c.id)] else [])
  }

  function Skipped(agent: string, caps: seq<Capability>, ans: Answers): seq<string> {
    if caps == [] then []
    else
      var c := caps[|caps| - 1];
      Skipped(agent, caps[..|caps| - 1], ans) + (if c.id != "" && !Registers(agent, c, ans) then [c.id] else [])
  }

  function Identified(caps: seq<Capability>): nat {
    if caps == [] then 0 else Identified(caps[..|caps| - 1]) + if caps[|caps| - 1].id != "" then 1 else 0
  }

  /** The report accounts for every capability with an id once, and for no other. */
  lemma {:induction false} AllReported(agent: string, caps: seq<Capability>, ans: Answers)
    ensures |Accepted(agent, caps, ans)| + |Skipped(agent, caps, ans)| == Identified(caps)
    ensures forall x :: x in Skipped(agent, caps, ans) <==>
      exists c :: c in caps && c.id == x && x != "" && (c.schema.Unknown? || ans.refuses(BridgeName(agent, c.id)))
    ensures forall name :: name in Accepted(agent, caps, ans) <==> name in Additions(agent, caps, ans)
  {
    hide Registers, BridgeName;
    if caps != [] {
      var rest, last := caps[..|caps| - 1], caps[|caps| - 1];
      assert caps == rest + [last];
      AllReported(agent, rest, ans);
      RegistersNamed(agent, last, ans);
    }
  }

  lemma RegistersNamed(agent: string, c: Capability, ans: Answers)
    ensures Registers(agent, c, ans) <==> c.id != "" && c.schema != Unknown && !ans.refuses(BridgeName(agent, c.id))
  {
  }

  lemma ReportMore(agent: string, caps: seq<Capability>, c: Capability, ans: Answers)
    ensures Accepted(agent, caps + [c], ans) == Accepted(agent, caps, ans) + if Registers(agent, c, ans) then [BridgeName(agent, c.id)] else []
    ensures Skipped(agent, caps + [c], ans) == Skipped(agent, caps, ans) + if c.id != "" && !Registers(agent, c, ans) then [c.id] else []
  {
    assert (caps + [c])[..|caps|] == caps;
  }

  predicate Stale(agent: string, caps: seq<Capability>, ans: Answers, name: string) {
    ans.lists && name != "" && Owns(agent, name) && name !in Wanted(agent, caps) && !ans.keeps(name)
  }

  function Synced(tools: map<string, Tool>, agent: string, caps: seq<Capability>, ans: Answers): map<string, Tool> {
    var all := tools + Additions(agent, caps, ans);
    map name | name in all && !Stale(agent, caps, ans, name) :: all[name]
  }

  class ToolRegistry {
    var tools: map<string, Tool>

    constructor (tools: map<string, Tool>)
      ensures this.tools == tools
    {
      this.tools := tools;
    }

    method RegisterAll(agent: string, caps: seq<Capability>, ans: Answers)
      returns (registered: seq<string>, skipped: seq<string>, wanted: set<string>)
      modifies this
      ensures tools == old(tools) + Additions(agent, caps, ans) && wanted == Wanted(agent, caps)
      ensures registered == Accepted(agent, caps, ans) && skipped == Skipped(agent, caps, ans)
    {
      hide BridgeName, Wanted, Additions, Accepted, Skipped;
      NothingYet(tools, agent, ans);
      registered, skipped, wanted := [], [], {};
      for i := 0 to |caps|
        invariant wanted == Wanted(agent, caps[..i])
        invariant tools == old(tools) + Additions(agent, caps[..i], ans)
        invariant registered == Accepted(agent, caps[..i], ans) && skipped == Skipped(agent, caps[..i], ans)
      {
        ReportMore(agent, caps[..i], caps[i], ans);
        WantedMore(agent, caps[..i], caps[i]);
        AdditionsMore(old(tools), agent, caps[..i], caps[i], ans);
        assert caps[..i + 1] == caps[..i] + [caps[i]];
        var c := caps[i];
        if c.id == "" { continue; }
        var name := BridgeName(agent, c.id);
        wanted := wanted + {name};
        if c.schema.Unknown? || ans.refuses(name) {
          skipped := skipped + [c.id];
        } else {
          tools := tools[name := Tool(agent, c.id, c.schema.params)];
          registered := registered + [name];
        }
      }
      assert caps[..|caps|] == caps;
    }

    method RemoveStale(agent: string, caps: seq<Capability>, wanted: set<string>, ans: Answers) returns (removed: set<string>)
      requires wanted == Wanted(agent, caps)
      modifies this
      ensures tools == map name | name in old(tools) && !Stale(agent, caps, ans, name) :: old(tools)[name]
      ensures removed == old(tools).Keys - tools.Keys
    {
      hide Wanted;
      removed := {};
      var existing := if ans.lists then tools.Keys else {};
      while existing != {}
        invariant existing <= old(tools).Keys && tools.Keys <= old(tools).Keys
        invariant forall name | name in tools :: tools[name] == old(tools)[name]
        invariant forall name | name in old(tools) :: name in tools <==> name in existing || !Stale(agent, caps, ans, name)
        invariant removed == old(tools).Keys - tools.Keys
      {
        var name :| name in existing;
        existing := existing - {name};
        if name != "" && Owns(agent, name) && name !in wanted {
          if !ans.keeps(name) {
            tools := tools - {name};
            removed := removed + {name};
          }
        }
      }
    }

    method SyncAgentTools(agent: string, caps: seq<Capability>, ans: Answers)
      returns (registered: seq<string>, removed: set<string>, skipped: seq<string>)
      modifies this
      ensures tools == Synced(old(tools), agent, caps, ans)
      ensures registered == Accepted(agent, caps, ans) && skipped == Skipped(agent, caps, ans)
      ensures |registered| + |skipped| == Identified(caps)
      ensures forall name :: name in registered <==> name in Additions(agent, caps, ans)
      ensures removed == (old(tools) + Additions(agent, caps, ans)).Keys - tools.Keys
    {
      hide Wanted, Additions, Stale;
      AllReported(agent, caps, ans);
      var wanted;
      registered, skipped, wanted := RegisterAll(agent, caps, ans);
      removed := RemoveStale(agent, caps, wanted, ans);
    }
  }

  lemma NothingYet(tools: map<string, Tool>, agent: string, ans: Answers)
    ensures Wanted(agent, []) == {} && Additions(agent, [], ans) == map[] && tools + map[] == tools
    ensures Accepted(agent, [], ans) == [] == Skipped(agent, [], ans)
  {
  }

  lemma AdditionsMore(tools: map<string, Tool>, agent: string, caps: seq<Capability>, c: Capability, ans: Answers)
    ensures var name, before, after := BridgeName(agent, c.id), Additions(agent, caps, ans), Additions(agent, caps + [c], ans);
      if Registers(agent, c, ans) then
        after == before[name := Tool(agent, c.id, c.schema.params)]
        && tools + after == (tools + before)[name := Tool(agent, c.id, c.schema.params)]
      else after == before
  {
    assert (caps + [c])[..|caps|] == caps;
  }

  lemma WantedMore(agent: string, caps: seq<Capability>, c: Capability)
    ensures Wanted(agent, caps + [c]) == Wanted(agent, caps) + (if c.id != "" then {BridgeName(agent, c.id)} else {})
  {
  }

  // ---- what a reconciliation achieves ----

  /** A tool is there afterwards as the last capability of its name that could be registered
      describes it, and otherwise as it was. */
  lemma {:induction false} LastCapabilityWins(agent: string, caps: seq<Capability>, ans: Answers, i: nat)
    requires i < |caps| && caps[i].id != "" && caps[i].schema.Known? && !ans.refuses(BridgeName(agent, caps[i].id))
    requires forall j | i < j < |caps| :: SaneName(caps[j].id) != SaneName(caps[i].id)
    ensures var name := BridgeName(agent, caps[i].id);
      name in Additions(agent, caps, ans) && Additions(agent, caps, ans)[name] == Tool(agent, caps[i].id, caps[i].schema.params)
    decreases |caps|
  {
    hide Key, SaneName;
    var n := |caps| - 1;
    if i < n {
      LastCapabilityWins(agent, caps[..n], ans, i);
      SameSane(agent, caps[i].id, caps[n].id);
    }
  }

  lemma SameSane(agent: string, c: string, d: string)
    ensures BridgeName(agent, c) == BridgeName(agent, d) ==> SaneName(c) == SaneName(d)
  {
    assert BridgeName(agent, c)[|Prefix(agent)|..] == SaneName(c);
    assert BridgeName(agent, d)[|Prefix(agent)|..] == SaneName(d);
  }

  /** What is gone afterwards: whatever bears the agent's prefix, is not wanted, and is let go
      by a registry that can list it. */
  lemma GoneIff(tools: map<string, Tool>, agent: string, caps: seq<Capability>, ans: Answers, name: string)
    requires name in tools
    ensures name !in Synced(tools, agent, caps, ans) <==> (
      && ans.lists && !ans.keeps(name) && "bt_" + Key(agent) + "_" <= name
      && forall c | c in caps && c.id != "" :: BridgeName(agent, c.id) != name)
    ensures name in Synced(tools, agent, caps, ans) && name !in Additions(agent, caps, ans) ==>
      Synced(tools, agent, caps, ans)[name] == tools[name]
  {
    hide Key, SaneName, Additions;
    assert "bt_" + Key(agent) + "_" <= name ==> name != "";
  }

  lemma {:induction false} AdditionsAreWanted(agent: string, caps: seq<Capability>, ans: Answers)
    ensures Additions(agent, caps, ans).Keys <= Wanted(agent, caps)
    ensures forall name | name in Wanted(agent, caps) :: Owns(agent, name)
    ensures forall c | c in caps && Registers(agent, c, ans) :: BridgeName(agent, c.id) in Additions(agent, caps, ans)
  {
    if caps != [] {
      var rest, c := caps[..|caps| - 1], caps[|caps| - 1];
      assert caps == rest + [c];
      AdditionsAreWanted(agent, rest, ans);
    }
  }

  /** When the registry lists its tools and lets them go, the agent's tools are then
      wanted ones, with all that were registered, and no other tool has changed. */
  lemma Converges(tools: map<string, Tool>, agent: string, caps: seq<Capability>, ans: Answers)
    requires ans.lists && forall name :: !ans.keeps(name)
    ensures var after := Synced(tools, agent, caps, ans);
      && (forall name | name in after && Owns(agent, name) :: name in Wanted(agent, caps))
      && (forall c | c in caps && Registers(agent, c, ans) :: BridgeName(agent, c.id) in after)
      && (forall name | !Owns(agent, name) :: name in after <==> name in tools)
      && (forall name | name in tools && !Owns(agent, name) :: after[name] == tools[name])
  {
    AdditionsAreWanted(agent, caps, ans);
  }

  /** A reconciliation changes nothing exactly when all it would register is there as it
      would register it, and no stale tool is there that the registry lets go. */
  lemma UnchangedIff(tools: map<string, Tool>, agent: string, caps: seq<Capability>, ans: Answers)
    ensures Synced(tools, agent, caps, ans) == tools
      <==> && (forall name | name in Additions(agent, caps, ans) :: name in tools && tools[name] == Additions(agent, caps, ans)[name])
           && (forall name | name in tools :: !Stale(agent, caps, ans, name))
  {
    AdditionsAreWanted(agent, caps, ans);
    var adds, after := Additions(agent, caps, ans), Synced(tools, agent, caps, ans);
    if after == tools {
      forall name | name in adds ensures name in tools && tools[name] == adds[name] {
        assert name in after && after[name] == adds[name];
      }
      forall name | name in tools ensures !Stale(agent, caps, ans, name) { assert name in after; }
    }
  }

  lemma {:induction false} FewerAdditions(agent: string, caps: seq<Capability>, one: Answers, two: Answers)
    requires forall name :: one.refuses(name) ==> two.refuses(name)
    ensures forall name | name in Additions(agent, caps, two) ::
      !two.refuses(name) && name in Additions(agent, caps, one) && Additions(agent, caps, one)[name] == Additions(agent, caps, two)[name]
  {
    if caps != [] { FewerAdditions(agent, caps[..|caps| - 1], one, two); }
  }

  /** Reconciling again changes nothing, as long as the registry does not meanwhile accept
      a name it refused or let a tool go that it kept. */
  lemma SyncAgain(tools: map<string, Tool>, agent: string, caps: seq<Capability>, one: Answers, two: Answers)
    requires forall name :: (one.refuses(name) ==> two.refuses(name)) && (one.keeps(name) ==> two.keeps(name))
    requires two.lists ==> one.lists
    ensures var after := Synced(tools, agent, caps, one); Synced(after, agent, caps, two) == after
  {
    AdditionsAreWanted(agent, caps, one);
    AdditionsAreWanted(agent, caps, two);
    FewerAdditions(agent, caps, one, two);
    var after, adds := Synced(tools, agent, caps, one), Additions(agent, caps, two);
    forall name | name in adds ensures name in after && after[name] == adds[name] {
      assert name in Wanted(agent, caps) && !Stale(agent, caps, one, name);
    }
    forall name | name in after ensures !Stale(agent, caps, two, name) {
      assert !Stale(agent, caps, one, name);
    }
    UnchangedIff(after, agent, caps, two);
  }

  /** Agents with different keys do not disturb each other: their reconciliations can
      be done in either order. */
  lemma SyncsCommute(tools: map<string, Tool>, a: string, capsA: seq<Capability>, b: string, capsB: seq<Capability>, ans: Answers)
    requires Key(a) != Key(b)
    ensures Synced(Synced(tools, a, capsA, ans), b, capsB, ans) == Synced(Synced(tools, b, capsB, ans), a, capsA, ans)
  {
    hide Wanted, Additions, Owns;
    AdditionsAreWanted(a, capsA, ans);
    AdditionsAreWanted(b, capsB, ans);
    forall name ensures !Owns(a, name) || !Owns(b, name) {
      if Owns(a, name) && Owns(b, name) { PrefixesDisjoint(a, b, name); }
    }
    var ab := Synced(Synced(tools, a, capsA, ans), b, capsB, ans);
    var ba := Synced(Synced(tools, b, capsB, ans), a, capsA, ans);
    forall name ensures name in ab <==> name in ba { }
    forall name | name in ab ensures ab[name] == ba[name] { }
  }

  /** Agents that share a key take each other's tools away. */
  lemma SharedKeyRemoves(tools: map<string, Tool>, a: string, b: string, capsB: seq<Capability>, ans: Answers, capability: string)
    requires Key(a) == Key(b) && ans.lists && !ans.keeps(BridgeName(a, capability))
    requires BridgeName(a, capability) !in Wanted(b, capsB)
    ensures BridgeName(a, capability) !in Synced(tools, b, capsB, ans)
  {
    assert Owns(b, BridgeName(a, capability));
  }
}
