/** A chat session: messages in the order they were added, linked to parents by
    id, and a pointer to the active leaf. Forks, edits and switches move the
    pointer through the tree. */
module ChatTree {
  import opened Text

  datatype Message = Message(id: string, role: string, content: string, parent: string, children: seq<string>)

  /** What the language model sees of a message. */
  datatype Entry = Entry(role: string, content: string)

  /** Index of the first message with an id, or -1. */
  function IndexOf(ms: seq<Message>, id: string): (r: int)
    ensures -1 <= r < |ms|
    ensures r >= 0 ==> ms[r].id == id
    ensures forall j | 0 <= j < |ms| && ms[j].id == id :: 0 <= r <= j
  {
    if ms == [] then -1
    else if ms[0].id == id then 0
    else
      var r := IndexOf(ms[1..], id);
      assert forall j | 0 < j < |ms| :: ms[j] == ms[1..][j - 1];
      if r < 0 then -1 else r + 1
  }

  /** Ids are unique, and a parent, where there is one, comes first. */
  ghost predicate Tree(ms: seq<Message>) {
    && (forall i | 0 <= i < |ms| :: ms[i].id != "")
    && (forall i, j | 0 <= i < j < |ms| :: ms[i].id != ms[j].id)
    && (forall i, j | 0 <= i < |ms| && 0 <= j < |ms| && ms[j].id == ms[i].parent :: j < i)
  }

  lemma IndexUnique(ms: seq<Message>, j: nat)
    requires Tree(ms) && j < |ms|
    ensures IndexOf(ms, ms[j].id) == j
  {
    hide IndexOf;
  }

  lemma ParentFirst(ms: seq<Message>, i: nat)
    requires Tree(ms) && i < |ms|
    ensures IndexOf(ms, ms[i].parent) < i
  {
    hide IndexOf;
  }

  /** An id nothing in the session mentions yet. */
  ghost predicate Fresh(ms: seq<Message>, id: string) {
    && id != ""
    && forall i | 0 <= i < |ms| :: ms[i].id != id && ms[i].parent != id && id !in ms[i].children
  }

  /** Positions from the root of a message's branch down to the message. */
  ghost function Chain(ms: seq<Message>, i: nat): seq<nat>
    requires Tree(ms) && i < |ms|
    decreases i
  {
    var p := IndexOf(ms, ms[i].parent);
    if ms[i].parent == "" || p < 0 then [i] else Chain(ms, p) + [i]
  }

  lemma {:induction false} ChainBounds(ms: seq<Message>, i: nat)
    requires Tree(ms) && i < |ms|
    ensures var c := Chain(ms, i); |c| > 0 && c[|c| - 1] == i && forall k | 0 <= k < |c| :: c[k] <= i
    decreases i
  {
    hide IndexOf;
    var p := IndexOf(ms, ms[i].parent);
    if ms[i].parent != "" && p >= 0 { ChainBounds(ms, p); }
  }

  // ---- paths ----

  /** A path from a message without a parent in the session, link by link, to `i`. */
  ghost predicate IsPath(ms: seq<Message>, path: seq<nat>, i: nat) {
    && |path| > 0 && path[|path| - 1] == i
    && (forall k | 0 <= k < |path| :: path[k] < |ms|)
    && (ms[path[0]].parent == "" || IndexOf(ms, ms[path[0]].parent) < 0)
    && (forall k | 0 < k < |path| :: ms[path[k]].parent != "" && ms[path[k]].parent == ms[path[k - 1]].id)
  }

  lemma LastLink(ms: seq<Message>, path: seq<nat>, i: nat)
    requires Tree(ms) && IsPath(ms, path, i) && |path| > 1
    ensures ms[i].parent != "" && IndexOf(ms, ms[i].parent) == path[|path| - 2]
  {
    hide IndexOf, Tree;
    assert ms[path[|path| - 1]].parent == ms[path[|path| - 2]].id;
    IndexUnique(ms, path[|path| - 2]);
  }

  /** Every message has exactly one path, its chain. */
  lemma {:induction false} OnePath(ms: seq<Message>, path: seq<nat>, i: nat)
    requires Tree(ms) && i < |ms|
    ensures IsPath(ms, path, i) <==> path == Chain(ms, i)
    decreases i
  {
    hide IndexOf, Tree;
    var p := IndexOf(ms, ms[i].parent);
    ParentFirst(ms, i);
    ChainBounds(ms, i);
    if ms[i].parent == "" || p < 0 {
      if IsPath(ms, path, i) && |path| > 1 {
        LastLink(ms, path, i);
        assert false;
      }
      assert IsPath(ms, path, i) ==> path == [i];
    } else {
      ChainBounds(ms, p);
      OnePath(ms, Chain(ms, p), p);
      if |path| > 0 {
        var up := path[..|path| - 1];
        OnePath(ms, up, p);
        if IsPath(ms, path, i) {
          assert |path| > 1;
          LastLink(ms, path, i);
          assert IsPath(ms, up, p);
          assert path == up + [i];
        }
      }
    }
  }

  /** Messages keep everything but their child lists, and only gain successors. */
  ghost predicate Extends(ms: seq<Message>, more: seq<Message>) {
    && |ms| <= |more|
    && forall i | 0 <= i < |ms| :: more[i] == ms[i].(children := more[i].children)
  }

  /** Adding messages changes no existing message's path. */
  lemma {:induction false} ChainsKept(ms: seq<Message>, more: seq<Message>, i: nat)
    requires Tree(ms) && Tree(more) && Extends(ms, more) && i < |ms|
    ensures Chain(more, i) == Chain(ms, i)
    decreases i
  {
    hide IndexOf;
    var p, q := IndexOf(ms, ms[i].parent), IndexOf(more, ms[i].parent);
    assert more[i].parent == ms[i].parent;
    if ms[i].parent != "" {
      assert q >= 0 ==> q < i && ms[q].id == ms[i].parent;
      assert p >= 0 ==> more[p].id == ms[i].parent;
      if p >= 0 { ChainsKept(ms, more, p); }
    }
  }

  ghost function Select(ms: seq<Message>, path: seq<nat>): seq<Message>
    requires forall k | 0 <= k < |path| :: path[k] < |ms|
  {
    if path == [] then [] else Select(ms, path[..|path| - 1]) + [ms[path[|path| - 1]]]
  }

  function EntryOf(m: Message): Entry { Entry(m.role, m.content) }

  ghost function EntriesOf(ms: seq<Message>): seq<Entry> {
    seq(|ms|, k requires 0 <= k < |ms| => EntryOf(ms[k]))
  }

  /** The messages of the branch that ends in a message, root first. */
  ghost function Branch(ms: seq<Message>, i: nat): seq<Message>
    requires Tree(ms) && i < |ms|
  {
    ChainBounds(ms, i);
    Select(ms, Chain(ms, i))
  }

  /** A branch is the parent's branch and one more message. */
  lemma BranchStep(ms: seq<Message>, i: nat)
    requires Tree(ms) && i < |ms|
    ensures var p := IndexOf(ms, ms[i].parent);
      Branch(ms, i) == (if ms[i].parent == "" || p < 0 then [] else Branch(ms, p)) + [ms[i]]
  {
    hide IndexOf, Tree;
    ChainBounds(ms, i);
    var p := IndexOf(ms, ms[i].parent);
    if ms[i].parent == "" || p < 0 {
      assert [i][..0] == [] && Select(ms, [i]) == Select(ms, [i][..0]) + [ms[i]];
    } else {
      assert Chain(ms, i)[..|Chain(ms, i)| - 1] == Chain(ms, p);
    }
  }

  /** The conversation that ends in a message. */
  ghost function Conversation(ms: seq<Message>, i: nat): seq<Entry>
    requires Tree(ms) && i < |ms|
  {
    EntriesOf(Branch(ms, i))
  }

  lemma ConversationStep(ms: seq<Message>, i: nat)
    requires Tree(ms) && i < |ms|
    ensures var p := IndexOf(ms, ms[i].parent);
      Conversation(ms, i) == (if ms[i].parent == "" || p < 0 then [] else Conversation(ms, p)) + [EntryOf(ms[i])]
  {
    hide IndexOf, Tree, Branch;
    BranchStep(ms, i);
  }

  lemma {:induction false} ConversationsKept(ms: seq<Message>, more: seq<Message>, i: nat)
    requires Tree(ms) && Tree(more) && Extends(ms, more) && i < |ms|
    ensures Conversation(more, i) == Conversation(ms, i)
    decreases i
  {
    hide IndexOf, Conversation;
    ConversationStep(ms, i);
    ConversationStep(more, i);
    var p, q := IndexOf(ms, ms[i].parent), IndexOf(more, ms[i].parent);
    assert more[i].parent == ms[i].parent && EntryOf(more[i]) == EntryOf(ms[i]);
    if ms[i].parent != "" {
      assert q >= 0 ==> q < i && ms[q].id == ms[i].parent;
      assert p >= 0 ==> more[p].id == ms[i].parent;
      if p >= 0 { ConversationsKept(ms, more, p); }
    }
  }

  // ---- adding one message ----

  function LastRoot(ms: seq<Message>): int
  {
    if ms == [] then -1 else if ms[|ms| - 1].parent == "" then |ms| - 1 else LastRoot(ms[..|ms| - 1])
  }

  /** The last message without a parent. */
  ghost predicate IsLastRoot(ms: seq<Message>, r: int) {
    0 <= r < |ms| && ms[r].parent == "" && forall j | r < j < |ms| :: ms[j].parent != ""
  }

  lemma {:induction false} LastRootIs(ms: seq<Message>)
    ensures -1 <= LastRoot(ms) < |ms| && forall j | LastRoot(ms) < j < |ms| :: ms[j].parent != ""
    ensures LastRoot(ms) >= 0 ==> ms[LastRoot(ms)].parent == ""
    ensures Tree(ms) && ms != [] ==> LastRoot(ms) >= 0 || ms[0].parent != ""
  {
    if ms != [] { LastRootIs(ms[..|ms| - 1]); }
  }

  /** The parent a message ends up with. */
  ghost function ParentFor(ms: seq<Message>, wanted: string): string {
    LastRootIs(ms);
    if wanted != "" then wanted else if LastRoot(ms) >= 0 then ms[LastRoot(ms)].id else ""
  }

  lemma TreeAppend(ms: seq<Message>, more: seq<Message>, m: Message)
    requires Tree(ms) && Fresh(ms, m.id) && m.parent != m.id
    requires |more| == |ms| && Extends(ms, more)
    ensures Tree(more + [m]) && Extends(ms, more + [m])
  {
  }

  // ---- which message records which ----

  /** Who records a new message: the parent it asks for or, if it asks for none, the last
      message without a parent. */
  function ReceiverOf(ms: seq<Message>, parent: string): (r: int)
    ensures -1 <= r < |ms|
  {
    LastRootIs(ms);
    if parent != "" then IndexOf(ms, parent) else LastRoot(ms)
  }

  /** Message `r`, if there is one, records one more child. */
  function Gains(ms: seq<Message>, r: int, id: string): seq<Message>
    requires r < |ms|
  {
    if r < 0 then ms else ms[r := ms[r].(children := ms[r].children + [id])]
  }

  /** Only the receiver gains, and it is the message asked for or the last root. */
  lemma GainsWhere(ms: seq<Message>, parent: string, id: string)
    requires Tree(ms)
    ensures var more := Gains(ms, ReceiverOf(ms, parent), id);
      && |more| == |ms|
      && (parent != "" ==> forall i | 0 <= i < |ms| :: more[i].children == ms[i].children + if ms[i].id == parent then [id] else [])
      && (parent == "" ==> forall r | IsLastRoot(ms, r) :: (
            && ParentFor(ms, parent) == ms[r].id
            && forall i | 0 <= i < |ms| :: more[i].children == ms[i].children + if i == r then [id] else []))
  {
    hide IndexOf, LastRoot;
    LastRootIs(ms);
    forall i | 0 <= i < |ms| { IndexUnique(ms, i); }
  }

  /** What becomes of a session when a message is added. */
  lemma Added(ms: seq<Message>, reworded: map<string, string>, parent: string, m: Message)
    requires Tree(ms) && Recorded(ms, reworded) && Fresh(ms, m.id) && parent != m.id
    requires m.parent == ParentFor(ms, parent) && m.children == []
    ensures var more := Gains(ms, ReceiverOf(ms, parent), m.id) + [m];
      && Tree(more) && Extends(ms, more) && Recorded(more, reworded) && |more| == |ms| + 1 && IndexOf(more, m.id) >= 0
      && (parent != "" ==> m.parent == parent && forall i | 0 <= i < |ms| ::
            more[i].children == ms[i].children + if ms[i].id == parent then [m.id] else [])
      && (parent == "" && ms == [] ==> m.parent == "")
      && (parent == "" ==> forall r | IsLastRoot(ms, r) :: (
            && m.parent == ms[r].id
            && forall i | 0 <= i < |ms| :: more[i].children == ms[i].children + if i == r then [m.id] else []))
  {
    hide IndexOf, Tree, LastRoot, Recorded;
    LastRootIs(ms);
    RootsNamed(ms);
    var r := ReceiverOf(ms, parent);
    var gained := Gains(ms, r, m.id);
    TreeAppend(ms, gained, m);
    assert (gained + [m])[|ms|].id == m.id;
    RecordedNew(ms, reworded, m, r);
    GainsWhere(ms, parent, m.id);
    assert forall i | 0 <= i < |ms| :: (gained + [m])[i] == gained[i];
  }

  lemma RootsNamed(ms: seq<Message>)
    requires Tree(ms)
    ensures forall i | 0 <= i < |ms| :: ms[i].id != ""
  {
  }

  /** The id under which a message is to be recorded: of the message it rewords, if it is
      an edit, of its parent otherwise. */
  function Keeper(m: Message, reworded: map<string, string>): string {
    if m.id in reworded then reworded[m.id] else m.parent
  }

  /** Every child list holds exactly the messages that are to be recorded there. */
  ghost predicate Recorded(ms: seq<Message>, reworded: map<string, string>) {
    && (forall p, x | 0 <= p < |ms| :: x in ms[p].children <==> IsKept(ms, reworded, p, x))
    && EditsKnown(ms, reworded)
  }

  /** An edit has the parent of what it rewords. */
  ghost predicate EditsKnown(ms: seq<Message>, reworded: map<string, string>) {
    forall x | x in reworded :: SameParent(ms, IndexOf(ms, x), IndexOf(ms, reworded[x]))
  }

  ghost predicate SameParent(ms: seq<Message>, i: int, j: int) {
    0 <= i < |ms| && 0 <= j < |ms| && ms[i].parent == ms[j].parent
  }

  ghost predicate IsKept(ms: seq<Message>, reworded: map<string, string>, p: nat, x: string)
    requires p < |ms|
  {
    exists j | 0 <= j < |ms| :: ms[j].id == x && ms[p].id == Keeper(ms[j], reworded)
  }

  lemma IndexKept(ms: seq<Message>, more: seq<Message>, id: string)
    requires Tree(ms) && Tree(more) && Extends(ms, more)
    ensures IndexOf(ms, id) >= 0 ==> IndexOf(more, id) == IndexOf(ms, id)
  {
    hide IndexOf;
    var i := IndexOf(ms, id);
    if i >= 0 {
      assert more[i].id == id;
      IndexUnique(more, i);
    }
  }

  lemma KeptMore(ms: seq<Message>, reworded: map<string, string>, more: seq<Message>, known: map<string, string>, m: Message, p: nat, x: string)
    requires |more| == |ms| + 1 && Extends(ms, more) && more[|ms|] == m && p < |more|
    requires Fresh(ms, m.id) && m.id !in reworded && (known == reworded || (m.id in known && known == reworded[m.id := known[m.id]]))
    requires m.id != Keeper(m, known) && forall j | 0 <= j < |ms| :: Keeper(ms[j], known) != m.id
    ensures IsKept(more, known, p, x) <==> (p < |ms| && IsKept(ms, reworded, p, x)) || (x == m.id && more[p].id == Keeper(m, known))
  {
    if p < |ms| && IsKept(ms, reworded, p, x) {
      var j :| 0 <= j < |ms| && ms[j].id == x && ms[p].id == Keeper(ms[j], reworded);
      assert more[j].id == x && Keeper(more[j], known) == more[p].id;
    }
    if x == m.id && more[p].id == Keeper(m, known) {
      assert more[|ms|].id == x;
    }
    if IsKept(more, known, p, x) {
      var j :| 0 <= j < |more| && more[j].id == x && more[p].id == Keeper(more[j], known);
      if j < |ms| {
        assert ms[j].id == x && Keeper(ms[j], reworded) == Keeper(more[j], known);
      }
    }
  }

  /** A message that is added and recorded with its keeper leaves the lists right. */
  lemma RecordedMore(ms: seq<Message>, reworded: map<string, string>, m: Message, r: int, known: map<string, string>)
    requires Tree(ms) && Recorded(ms, reworded) && Fresh(ms, m.id) && m.children == [] && m.parent != m.id && r < |ms|
    requires Tree(Gains(ms, r, m.id) + [m]) && Extends(ms, Gains(ms, r, m.id) + [m])
    requires known == reworded || (r >= 0 && known == reworded[m.id := ms[r].id] && m.parent == ms[r].parent)
    requires if r >= 0 then ms[r].id == Keeper(m, known) else forall i | 0 <= i < |ms| :: ms[i].id != Keeper(m, known)
    ensures Recorded(Gains(ms, r, m.id) + [m], known)
  {
    hide IndexOf, Tree, IsKept, Keeper, EditsKnown;
    var more := Gains(ms, r, m.id) + [m];
    NewKey(ms, reworded, m, r, known);
    forall p, x | 0 <= p < |more| ensures x in more[p].children <==> IsKept(more, known, p, x) {
      KeptMore(ms, reworded, more, known, m, p, x);
      KeptOnce(ms, reworded, m, known, r, p);
    }
    EditsMore(ms, reworded, more, m, r, known);
  }

  lemma EditsMore(ms: seq<Message>, reworded: map<string, string>, more: seq<Message>, m: Message, r: int, known: map<string, string>)
    requires Tree(ms) && EditsKnown(ms, reworded) && Tree(more) && Extends(ms, more) && |more| == |ms| + 1 && more[|ms|] == m
    requires r < |ms| && (known == reworded || (r >= 0 && known == reworded[m.id := ms[r].id] && m.parent == ms[r].parent))
    ensures EditsKnown(more, known)
  {
    hide IndexOf, Tree;
    IndexUnique(more, |ms|);
    forall x | x in known ensures SameParent(more, IndexOf(more, x), IndexOf(more, known[x])) {
      if x in reworded && known[x] == reworded[x] {
        IndexKept(ms, more, x);
        IndexKept(ms, more, reworded[x]);
      } else {
        assert more[r].id == ms[r].id && x == m.id;
        IndexUnique(more, r);
      }
    }
  }

  lemma RecordedNew(ms: seq<Message>, reworded: map<string, string>, m: Message, r: int)
    requires Tree(ms) && Recorded(ms, reworded) && Fresh(ms, m.id) && m.children == [] && m.parent != m.id && r < |ms|
    requires Tree(Gains(ms, r, m.id) + [m]) && Extends(ms, Gains(ms, r, m.id) + [m])
    requires if r >= 0 then ms[r].id == m.parent else forall i | 0 <= i < |ms| :: ms[i].id != m.parent
    ensures Recorded(Gains(ms, r, m.id) + [m], reworded)
  {
    hide Tree;
    NewKey(ms, reworded, m, r, reworded);
    RecordedMore(ms, reworded, m, r, reworded);
  }

  lemma RecordedEdit(ms: seq<Message>, reworded: map<string, string>, m: Message, r: nat)
    requires Tree(ms) && Recorded(ms, reworded) && Fresh(ms, m.id) && m.children == [] && r < |ms| && m.parent == ms[r].parent
    requires Tree(Gains(ms, r, m.id) + [m]) && Extends(ms, Gains(ms, r, m.id) + [m])
    ensures Recorded(Gains(ms, r, m.id) + [m], reworded[m.id := ms[r].id])
  {
    hide Tree, Recorded;
    RecordedMore(ms, reworded, m, r, reworded[m.id := ms[r].id]);
  }

  lemma StillFresh(ms: seq<Message>, wanted: string, m: Message, id: string)
    requires Fresh(ms, id) && (wanted == "" || IndexOf(ms, wanted) >= 0)
    requires m.id != id && m.parent == ParentFor(ms, wanted) && m.children == []
    ensures Fresh(Gains(ms, ReceiverOf(ms, wanted), m.id) + [m], id)
  {
    hide IndexOf, LastRoot;
    LastRootIs(ms);
  }

  lemma RecordedFilled(ms: seq<Message>, reworded: map<string, string>, n: nat, text: string)
    requires Recorded(ms, reworded) && n < |ms|
    ensures Recorded(ms[n := ms[n].(content := text)], reworded)
  {
    hide IsKept, EditsKnown;
    var filled := ms[n := ms[n].(content := text)];
    forall p, x | 0 <= p < |ms| { KeptFilled(ms, reworded, n, text, p, x); }
    assert forall p | 0 <= p < |ms| :: filled[p].children == ms[p].children;
    EditsFilled(ms, reworded, n, text);
  }

  lemma KeptFilled(ms: seq<Message>, reworded: map<string, string>, n: nat, text: string, p: nat, x: string)
    requires n < |ms| && p < |ms|
    ensures IsKept(ms[n := ms[n].(content := text)], reworded, p, x) == IsKept(ms, reworded, p, x)
  {
    var filled := ms[n := ms[n].(content := text)];
    assert forall j | 0 <= j < |ms| :: filled[j].id == ms[j].id && Keeper(filled[j], reworded) == Keeper(ms[j], reworded);
  }

  lemma EditsFilled(ms: seq<Message>, reworded: map<string, string>, n: nat, text: string)
    requires EditsKnown(ms, reworded) && n < |ms|
    ensures EditsKnown(ms[n := ms[n].(content := text)], reworded)
  {
    hide IndexOf;
    var filled := ms[n := ms[n].(content := text)];
    forall x | x in reworded ensures SameParent(filled, IndexOf(filled, x), IndexOf(filled, reworded[x])) {
      SameIndex(ms, filled, x);
      SameIndex(ms, filled, reworded[x]);
    }
  }

  lemma {:induction false} SameIndex(a: seq<Message>, b: seq<Message>, id: string)
    requires |a| == |b| && forall i | 0 <= i < |a| :: a[i].id == b[i].id
    ensures IndexOf(a, id) == IndexOf(b, id)
  {
    if a != [] { SameIndex(a[1..], b[1..], id); }
  }

  lemma NewKey(ms: seq<Message>, reworded: map<string, string>, m: Message, r: int, known: map<string, string>)
    requires Recorded(ms, reworded) && Fresh(ms, m.id) && m.parent != m.id && r < |ms|
    requires known == reworded || (r >= 0 && known == reworded[m.id := ms[r].id])
    ensures m.id !in reworded && Keeper(m, known) != m.id && forall j | 0 <= j < |ms| :: Keeper(ms[j], known) != m.id
  {
    assert IndexOf(ms, m.id) < 0;
  }

  /** The keeper is message `r`, and no other. */
  lemma KeptOnce(ms: seq<Message>, reworded: map<string, string>, m: Message, known: map<string, string>, r: int, p: nat)
    requires Tree(ms) && Fresh(ms, m.id) && r < |ms| && p <= |ms| && m.id != Keeper(m, known)
    requires if r >= 0 then ms[r].id == Keeper(m, known) else forall i | 0 <= i < |ms| :: ms[i].id != Keeper(m, known)
    ensures (Gains(ms, r, m.id) + [m])[p].id == Keeper(m, known) <==> p == r
  {
    hide Keeper, IndexOf;
  }

  function Reversed<T>(s: seq<T>): seq<T> {
    if s == [] then [] else Reversed(s[1..]) + [s[0]]
  }

  lemma {:induction false} ReversedSnoc<T>(s: seq<T>, x: T)
    ensures Reversed(s + [x]) == [x] + Reversed(s)
  {
    if s == [] {
      assert s + [x] == [x];
    } else {
      assert (s + [x])[1..] == s[1..] + [x];
      ReversedSnoc(s[1..], x);
    }
  }

  class ChatSession {
    var messages: seq<Message>
    var active: string
    /** The edits made, each with the message it rewords. */
    ghost var reworded: map<string, string>

    /** A tree of messages in which each is recorded where it belongs, with the pointer on
        one of them unless there is none. */
    ghost predicate Valid()
      reads this
    {
      && Tree(messages) && Recorded(messages, reworded)
      && (messages == [] <==> active == "")
      && (messages != [] ==> IndexOf(messages, active) >= 0)
    }

    /** The conversation that ends at the active leaf. */
    ghost function Active(): seq<Entry>
      requires Valid()
      reads this
    {
      if messages == [] then [] else Conversation(messages, IndexOf(messages, active))
    }

    constructor ()
      ensures Valid() && messages == [] && active == "" && Active() == [] && reworded == map[]
    {
      messages, active, reworded := [], "", map[];
    }

    /** Walks the parent links up from a leaf, then turns the result round. */
    method GetLinearBranch(leafId: string) returns (branch: seq<Message>)
      requires Valid()
      ensures messages == [] ==> branch == []
      ensures messages != [] ==>
        var i := IndexOf(messages, if leafId != "" then leafId else active);
        if i < 0 then branch == []
        else branch == Branch(messages, i)
    {
      hide IndexOf, Branch;
      if messages == [] { return []; }
      var leaf := if leafId != "" then leafId else active;
      var current := IndexOf(messages, leaf);
      if current < 0 { return []; }
      ghost var i := current;
      var chain := [];
      branch := [];
      while true
        invariant 0 <= current < |messages|
        invariant Branch(messages, current) + Reversed(chain) == Branch(messages, i)
        decreases current
      {
        BranchStep(messages, current);
        ReversedSnoc(chain, messages[current]);
        chain := chain + [messages[current]];
        if messages[current].parent == "" { break; }
        var up := IndexOf(messages, messages[current].parent);
        if up < 0 { break; }
        current := up;
      }
      branch := Reversed(chain);
    }

    /** `add_message`: links the message under its parent, or under the last root,
        and moves the pointer to it. */
    method AddMessage(id: string, role: string, content: string, parent: string)
      requires Valid() && Fresh(messages, id) && parent != id
      modifies this
      ensures Valid() && Extends(old(messages), messages) && reworded == old(reworded)
      ensures |messages| == |old(messages)| + 1 && active == id
      ensures messages == Gains(old(messages), ReceiverOf(old(messages), parent), id)
        + [Message(id, role, content, ParentFor(old(messages), parent), [])]
      ensures parent != "" ==> messages[|messages| - 1].parent == parent && forall i | 0 <= i < |old(messages)| ::
        messages[i].children == old(messages)[i].children + if old(messages)[i].id == parent then [id] else []
      ensures parent == "" && old(messages) == [] ==> messages[|messages| - 1].parent == ""
      ensures parent == "" ==> forall r | IsLastRoot(old(messages), r) :: (
        && messages[|messages| - 1].parent == old(messages)[r].id
        && forall i | 0 <= i < |old(messages)| :: messages[i].children == old(messages)[i].children + if i == r then [id] else [])
    {
      hide IndexOf, Tree, LastRoot, Recorded;
      LastRootIs(messages);
      ghost var before := messages;
      ghost var r := ReceiverOf(messages, parent);
      var p := parent;
      if parent != "" {
        var j := IndexOf(messages, parent);
        if j >= 0 && id !in messages[j].children {
          messages := messages[j := messages[j].(children := messages[j].children + [id])];
        }
      } else {
        var r := LastRoot(messages);
        if r >= 0 {
          p := messages[r].id;
          messages := messages[r := messages[r].(children := messages[r].children + [id])];
        }
      }
      ghost var m := Message(id, role, content, p, []);
      messages := messages + [Message(id, role, content, p, [])];
      active := id;
      assert messages == Gains(before, r, id) + [m] && p == ParentFor(before, parent);
      hide Gains, IsLastRoot, Fresh, ParentFor, ReceiverOf, Extends;
      Added(before, reworded, parent, m);
    }

    /** A user turn: the question and an empty answer are appended to the active
        branch, then the answer is filled in token by token. */
    method Send(userId: string, assistantId: string, text: string, tokens: seq<string>)
      requires Valid() && Fresh(messages, userId) && Fresh(messages, assistantId) && userId != assistantId
      modifies this
      ensures Valid()
      ensures |messages| == |old(messages)| + 2 && active == assistantId && Extends(old(messages), messages)
      ensures reworded == old(reworded)
      ensures Active() == old(Active()) + [Entry("user", text), Entry("assistant", Joined(tokens))]
      ensures forall i | 0 <= i < |old(messages)| :: Chain(messages, i) == old(Chain(messages, i))
    {
      hide IndexOf, Conversation, Recorded, Gains, LastRoot, Chain;
      ghost var before, leaf := messages, active;
      AddMessage(userId, "user", text, active);
      hide Fresh;
      StillFresh(before, leaf, messages[|before|], assistantId);
      AddMessage(assistantId, "assistant", "", userId);
      var n := |messages| - 1;
      ghost var twoMore := messages;
      var full := "";
      for t := 0 to |tokens|
        invariant full == Joined(tokens[..t])
        invariant n == |messages| - 1 && messages == twoMore[n := twoMore[n].(content := full)]
        invariant active == assistantId && reworded == old(reworded)
      {
        assert tokens[..t + 1][..t] == tokens[..t];
        full := full + tokens[t];
        messages := messages[n := messages[n].(content := full)];
      }
      assert tokens[..|tokens|] == tokens;
      RecordedFilled(twoMore, reworded, n, full);
      SendTalk(before, messages, leaf, userId, assistantId);
      assert IndexOf(messages, assistantId) == n;
      forall i | 0 <= i < |before| ensures Chain(messages, i) == Chain(before, i) { ChainsKept(before, messages, i); }
    }

    /** Replaces nothing: an edit is a new sibling of the user message it rewords,
        and becomes the active leaf. */
    method Edit(messageId: string, newId: string, content: string) returns (done: bool)
      requires Valid() && Fresh(messages, newId)
      modifies this
      ensures Valid() && Extends(old(messages), messages)
      ensures var i := IndexOf(old(messages), messageId);
        done == (i >= 0 && old(messages)[i].role == "user")
      ensures !done ==> messages == old(messages) && active == old(active) && reworded == old(reworded)
      ensures done ==> var i := IndexOf(old(messages), messageId); var talk := Conversation(old(messages), i);
        && messages == old(messages)[i := old(messages)[i].(children := old(messages)[i].children + [newId])]
             + [Message(newId, "user", content, old(messages)[i].parent, [])]
        && active == newId && reworded == old(reworded)[newId := messageId]
        && Active() == talk[..|talk| - 1] + [Entry("user", content)]
      ensures forall j | 0 <= j < |old(messages)| :: Chain(messages, j) == old(Chain(messages, j))
    {
      hide IndexOf, Tree, Conversation, Recorded;
      var i := IndexOf(messages, messageId);
      if i < 0 || messages[i].role != "user" { return false; }
      ghost var before := messages;
      var original := messages[i];
      var edited := Message(newId, "user", content, original.parent, []);
      messages := messages[i := original.(children := original.children + [newId])];
      TreeAppend(before, messages, edited);
      messages := messages + [edited];
      RecordedEdit(before, reworded, edited, i);
      reworded := reworded[newId := messageId];
      active := newId;
      assert messages[|before|].id == newId;
      IndexUnique(messages, |before|);
      EditTalk(before, messages, i);
      forall j | 0 <= j < |before| ensures Chain(messages, j) == Chain(before, j) { ChainsKept(before, messages, j); }
      return true;
    }

    /** Moves the pointer to any message of the session. */
    method SwitchBranch(messageId: string) returns (done: bool)
      requires Valid()
      modifies this`active
      ensures Valid()
      ensures done == (IndexOf(messages, messageId) >= 0)
      ensures if done then active == messageId && Active() == Conversation(messages, IndexOf(messages, messageId)) else active == old(active)
    {
      hide IndexOf, Conversation;
      var i := IndexOf(messages, messageId);
      if i < 0 { return false; }
      active := messageId;
      return true;
    }

    /** Copies the branch that ends in a message into a session of its own, under
        new ids. This session is not touched. */
    method Fork(messageId: string, newIds: seq<string>) returns (copy: ChatSession?)
      requires Valid()
      requires |newIds| >= |messages|
      requires forall a, b | 0 <= a < b < |newIds| :: newIds[a] != newIds[b]
      requires forall a | 0 <= a < |newIds| :: newIds[a] != ""
      ensures copy == null <==> IndexOf(messages, messageId) < 0
      ensures copy != null ==> fresh(copy) && copy.Valid() && |copy.messages| == |copy.Active()|
      ensures copy != null ==> copy.Active() == Conversation(messages, IndexOf(messages, messageId))
    {
      hide IndexOf, Conversation, Branch, Chain, Tree, Fresh, Copied, Extends, Gains, ReceiverOf, ParentFor, IsLastRoot, Recorded;
      var i := IndexOf(messages, messageId);
      if i < 0 { return null; }
      if messageId == "" { NamedOnly(messages, i); }
      var prefix := GetLinearBranch(messageId);
      BranchLength(messages, i);
      copy := new ChatSession();
      NoneCopied(newIds);
      assert prefix[..0] == [];
      for n := 0 to |prefix|
        invariant fresh(copy) && copy.Valid() && |copy.messages| == n && Copied(copy.messages, newIds, n)
        invariant copy.Active() == EntriesOf(prefix[..n]) && copy.active == if n == 0 then "" else newIds[n - 1]
      {
        ghost var before := copy.messages;
        CopiedFresh(before, newIds, n);
        copy.AddMessage(newIds[n], prefix[n].role, prefix[n].content, copy.active);
        if n > 0 { CopiedIndex(before, newIds, n); }
        CopiedMore(before, copy.messages, newIds, n);
        OneMoreEntry(before, copy.messages, newIds[n], prefix, n);
      }
      assert prefix[..|prefix|] == prefix;
      ConversationIs(messages, i);
    }
  }

  lemma ConversationIs(ms: seq<Message>, i: nat)
    requires Tree(ms) && i < |ms|
    ensures Conversation(ms, i) == EntriesOf(Branch(ms, i))
  {
  }

  lemma NamedOnly(ms: seq<Message>, i: nat)
    requires Tree(ms) && i < |ms|
    ensures ms[i].id != ""
  {
  }

  /** A session copied message by message is a chain under the given ids. */
  ghost predicate Copied(ms: seq<Message>, ids: seq<string>, n: nat) {
    && |ms| == n <= |ids|
    && (forall a, b | 0 <= a < b < |ids| :: ids[a] != ids[b]) && (forall a | 0 <= a < |ids| :: ids[a] != "")
    && forall j | 0 <= j < n ::
      && ms[j].id == ids[j] && (j == 0 ==> ms[j].parent == "") && (j > 0 ==> ms[j].parent == ids[j - 1])
      && forall c | c in ms[j].children :: exists a :: 0 <= a < n && ids[a] == c
  }

  lemma NoneCopied(ids: seq<string>)
    requires (forall a, b | 0 <= a < b < |ids| :: ids[a] != ids[b]) && (forall a | 0 <= a < |ids| :: ids[a] != "")
    ensures Copied([], ids, 0)
  {
  }

  lemma CopiedFresh(ms: seq<Message>, ids: seq<string>, n: nat)
    requires Copied(ms, ids, n) && n < |ids|
    ensures Fresh(ms, ids[n]) && (n > 0 ==> ids[n - 1] != ids[n])
  {
    forall j | 0 <= j < n ensures ms[j].id != ids[n] && ms[j].parent != ids[n] && ids[n] !in ms[j].children {
      assert ids[j] != ids[n] && (j > 0 ==> ids[j - 1] != ids[n]);
      forall c | c in ms[j].children ensures c != ids[n] {
        var a :| 0 <= a < n && ids[a] == c;
      }
    }
  }

  lemma CopiedIndex(ms: seq<Message>, ids: seq<string>, n: nat)
    requires Tree(ms) && Copied(ms, ids, n) && n > 0
    ensures IndexOf(ms, ids[n - 1]) == n - 1 && ms[n - 1].id == ids[n - 1]
  {
    IndexUnique(ms, n - 1);
  }

  lemma CopiedMore(before: seq<Message>, now: seq<Message>, ids: seq<string>, n: nat)
    requires Copied(before, ids, n) && n < |ids| && |now| == n + 1 && Extends(before, now)
    requires now[n].id == ids[n] && now[n].parent == (if n == 0 then "" else ids[n - 1]) && now[n].children == []
    requires exists r, m :: r < n && now == Gains(before, r, ids[n]) + [m]
    ensures Copied(now, ids, n + 1)
  {
    forall j, c | 0 <= j < n && c in now[j].children ensures exists a :: 0 <= a < n + 1 && ids[a] == c {
      assert c in before[j].children || c == ids[n];
    }
  }

  /** The ids `get_branches` takes for the siblings of a message: the children its
      parent records, or all messages without a parent. */
  function Siblings(ms: seq<Message>, i: nat): seq<string>
    requires i < |ms|
  {
    var p := if ms[i].parent == "" then -1 else IndexOf(ms, ms[i].parent);
    if p < 0 then Roots(ms) else ms[p].children
  }

  function Roots(ms: seq<Message>): seq<string> {
    if ms == [] then []
    else Roots(ms[..|ms| - 1]) + (if ms[|ms| - 1].parent == "" then [ms[|ms| - 1].id] else [])
  }

  lemma {:induction false} RootsAre(ms: seq<Message>, id: string)
    ensures id in Roots(ms) <==> exists i :: 0 <= i < |ms| && ms[i].parent == "" && ms[i].id == id
  {
    if ms != [] {
      RootsAre(ms[..|ms| - 1], id);
      if i :| 0 <= i < |ms| && ms[i].parent == "" && ms[i].id == id {
        assert i < |ms| - 1 ==> ms[..|ms| - 1][i] == ms[i];
      }
    }
  }

  /** An edit records the new message under the message it rewords, not under
      their common parent, so it shows up among its own siblings exactly when it
      rewords a first message. */
  lemma EditIsListedIff(ms: seq<Message>, i: nat, newId: string, content: string)
    requires Tree(ms) && Fresh(ms, newId) && i < |ms|
    ensures var more := ms[i := ms[i].(children := ms[i].children + [newId])]
        + [Message(newId, "user", content, ms[i].parent, [])];
      newId in Siblings(more, |ms|) <==> ms[i].parent == ""
  {
    hide IndexOf;
    var more := ms[i := ms[i].(children := ms[i].children + [newId])] + [Message(newId, "user", content, ms[i].parent, [])];
    RootsAre(more, newId);
    assert more[|ms|].id == newId;
    if ms[i].parent != "" {
      var p := IndexOf(more, ms[i].parent);
      assert p >= 0 ==> p != |ms| && more[p].id == ms[i].parent;
      assert p >= 0 ==> ms[p].id == ms[i].parent && p < i;
      assert forall j | 0 <= j < |more| && more[j].id == newId :: j == |ms|;
    }
  }

  /** In every state a session can reach: a message is listed among its own siblings
      exactly when it is a first message, or its parent is there and it is no edit. */
  lemma ListedIff(ms: seq<Message>, reworded: map<string, string>, i: nat)
    requires Tree(ms) && Recorded(ms, reworded) && i < |ms|
    ensures ms[i].id in Siblings(ms, i) <==>
      ms[i].parent == "" || (IndexOf(ms, ms[i].parent) >= 0 && ms[i].id !in reworded)
  {
    hide IndexOf;
    RootsAre(ms, ms[i].id);
    var p := IndexOf(ms, ms[i].parent);
    if ms[i].parent != "" && p >= 0 {
      ParentFirst(ms, i);
      IndexUnique(ms, i);
      if ms[i].id in reworded {
        var q := IndexOf(ms, reworded[ms[i].id]);
        assert SameParent(ms, i, q);
        ParentFirst(ms, q);
        assert q != p && ms[q].id != ms[p].id;
      }
    }
  }

  lemma EditTalk(before: seq<Message>, edited: seq<Message>, i: nat)
    requires Tree(before) && Tree(edited) && Extends(before, edited) && i < |before| && |edited| == |before| + 1
    requires edited[|before|].parent == before[i].parent
    ensures var talk := Conversation(before, i);
      && |talk| > 0
      && Conversation(edited, |before|) == talk[..|talk| - 1] + [EntryOf(edited[|before|])]
  {
    hide IndexOf, Conversation;
    ConversationStep(before, i);
    ConversationStep(edited, |before|);
    ConversationStep(edited, i);
    ConversationsKept(before, edited, i);
    assert edited[i].parent == before[i].parent;
    var p := IndexOf(edited, before[i].parent);
    var up := if before[i].parent == "" || p < 0 then [] else Conversation(edited, p);
    assert (up + [EntryOf(edited[i])])[..|up|] == up;
  }

  lemma BranchLength(ms: seq<Message>, i: nat)
    requires Tree(ms) && i < |ms|
    ensures |Branch(ms, i)| <= |ms|
  {
    BranchAtMost(ms, i);
  }

  lemma {:induction false} BranchAtMost(ms: seq<Message>, i: nat)
    requires Tree(ms) && i < |ms|
    ensures |Branch(ms, i)| <= i + 1
    decreases i
  {
    hide IndexOf, Branch;
    BranchStep(ms, i);
    ParentFirst(ms, i);
    var p := IndexOf(ms, ms[i].parent);
    if ms[i].parent != "" && p >= 0 { BranchAtMost(ms, p); }
  }

  /** A message added under the last one of a chain ends a one entry longer
      conversation. */
  lemma OneMoreEntry(before: seq<Message>, now: seq<Message>, id: string, prefix: seq<Message>, n: nat)
    requires Tree(before) && Tree(now) && Extends(before, now) && |now| == |before| + 1 && n == |before| < |prefix|
    requires now[n].id == id && EntryOf(now[n]) == EntryOf(prefix[n])
    requires n == 0 ==> now[n].parent == ""
    requires n > 0 ==> now[n].parent == before[n - 1].id && Conversation(before, n - 1) == EntriesOf(prefix[..n])
    ensures IndexOf(now, id) == n && Conversation(now, n) == EntriesOf(prefix[..n + 1])
  {
    hide IndexOf, Conversation;
    IndexUnique(now, n);
    ConversationStep(now, n);
    if n > 0 {
      assert now[n - 1].id == before[n - 1].id;
      IndexUnique(now, n - 1);
      ConversationsKept(before, now, n - 1);
    }
    assert prefix[..n + 1] == prefix[..n] + [prefix[n]];
  }

  /** The active conversation after two more messages on the active branch. */
  lemma SendTalk(before: seq<Message>, sent: seq<Message>, active: string, userId: string, assistantId: string)
    requires Tree(before) && Tree(sent) && Extends(before, sent) && |sent| == |before| + 2
    requires before != [] ==> IndexOf(before, active) >= 0
    requires sent[|before|].id == userId && sent[|before|].parent == (if before == [] then "" else active)
    requires sent[|before| + 1].id == assistantId && sent[|before| + 1].parent == userId
    ensures Conversation(sent, |before| + 1)
      == (if before == [] then [] else Conversation(before, IndexOf(before, active)))
         + [EntryOf(sent[|before|]), EntryOf(sent[|before| + 1])]
  {
    hide IndexOf, Conversation;
    var n := |before|;
    ConversationStep(sent, n);
    ConversationStep(sent, n + 1);
    assert IndexOf(sent, userId) == n;
    if before != [] {
      var i := IndexOf(before, active);
      assert sent[i].id == active;
      assert IndexOf(sent, active) == i;
      ConversationsKept(before, sent, i);
    }
  }
}
