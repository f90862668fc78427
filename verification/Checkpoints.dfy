/** The conversation a run carries, the tool calls left open at its end, and what
    a checkpoint saves of a run and brings back. */
module Checkpoints {
  import opened Options

  /** The name and argument text of a call whose JSON could be read. */
  datatype Parsed = Parsed(name: string, args: string)

  datatype ToolCall = ToolCall(id: string, parsed: Option<Parsed>)

  datatype Message =
    | System(text: string)
    | User(text: string)
    | Assistant(text: string, calls: seq<ToolCall>)
    | Tool(callId: string, text: string)

  /** The tool calls at the tail of the conversation that no reply has closed. */
  function PendingCalls(messages: seq<Message>): seq<ToolCall> {
    if messages == [] then []
    else match messages[|messages| - 1]
      case Tool(_, _) => []
      case Assistant(_, calls) => calls
      case _ => PendingCalls(messages[..|messages| - 1])
  }

  method ExtractPendingToolCalls(messages: seq<Message>) returns (pending: seq<ToolCall>)
    ensures pending == PendingCalls(messages)
  {
    var i := |messages|;
    assert messages[..i] == messages;
    while i > 0
      invariant 0 <= i <= |messages|
      invariant PendingCalls(messages) == PendingCalls(messages[..i])
    {
      i := i - 1;
      var msg := messages[i];
      assert messages[..i + 1][..i] == messages[..i];
      if msg.Tool? { return []; }
      if msg.Assistant? { return msg.calls; }
    }
    return [];
  }

  /** A message the scan passes over. */
  predicate Passive(m: Message) { m.System? || m.User? }

  /** What is pending, from the last message that is neither system nor user:
      an assistant's calls if it is an assistant message, else nothing. */
  lemma {:induction false} PendingIs(before: seq<Message>, last: Message, after: seq<Message>)
    requires !Passive(last) && forall m | m in after :: Passive(m)
    ensures PendingCalls(before + [last] + after) == if last.Assistant? then last.calls else []
  {
    var ms := before + [last] + after;
    if after == [] {
      assert ms == before + [last];
    } else {
      assert ms[..|ms| - 1] == before + [last] + after[..|after| - 1];
      assert ms[|ms| - 1] == after[|after| - 1] && after[|after| - 1] in after;
      PendingIs(before, last, after[..|after| - 1]);
    }
  }

  lemma {:induction false} NothingPending(messages: seq<Message>)
    requires forall m | m in messages :: Passive(m)
    ensures PendingCalls(messages) == []
  {
    if messages != [] {
      assert messages[|messages| - 1] in messages;
      NothingPending(messages[..|messages| - 1]);
    }
  }

  predicate RepliesOnly(ms: seq<Message>) { forall m | m in ms :: m.Tool? || Passive(m) }

  predicate HasReply(ms: seq<Message>) { exists m :: m in ms && m.Tool? }

  /** An assistant's batch stays pending, however many system and user messages
      follow it, until its first reply; from then on nothing is pending, even
      while later calls of the batch still wait for theirs. */
  lemma {:induction false} PendingUntilFirstReply(before: seq<Message>, text: string, calls: seq<ToolCall>, after: seq<Message>)
    requires RepliesOnly(after)
    ensures PendingCalls(before + [Assistant(text, calls)] + after) == if HasReply(after) then [] else calls
  {
    if after == [] {
      PendingIs(before, Assistant(text, calls), []);
    } else {
      var last, rest := after[|after| - 1], after[..|after| - 1];
      var ms := before + [Assistant(text, calls)] + after;
      assert ms[..|ms| - 1] == before + [Assistant(text, calls)] + rest;
      assert after == rest + [last] && last in after && ms[|ms| - 1] == last;
      PendingUntilFirstReply(before, text, calls, rest);
    }
  }

  // ---- save and resume ----

  type Variables = map<string, string>

  /** The part of a run's context that checkpoints are about. */
  datatype Context = Context(
    messages: seq<Message>, iteration: nat, node: string, chain: nat, variables: Variables, planMode: bool)

  datatype Checkpoint = Checkpoint(
    node: string, messages: seq<Message>, iteration: nat, variables: Variables, chain: nat, pending: seq<ToolCall>)

  /** What a graph tells the dispatcher when a run starts. */
  datatype Entry = Entry(start: string, planMode: bool)

  function Save(c: Context): Checkpoint {
    Checkpoint(c.node, c.messages, c.iteration, c.variables, c.chain, PendingCalls(c.messages))
  }

  /** The context rebuilt from a checkpoint, with human decisions on top. */
  function Restore(k: Checkpoint, graph: Entry, humanInputs: Variables): Context {
    Context(k.messages, k.iteration, if k.node != "" then k.node else graph.start, k.chain,
            k.variables + humanInputs, false)
  }

  /** What the dispatcher does to a context it is handed before the first node:
      a fresh call chain, the graph's plan flag, one more user message, and the
      walk starting at the graph's start node. */
  function Enter(c: Context, graph: Entry, input: string): Context {
    c.(chain := 0, planMode := graph.planMode || c.planMode, messages := c.messages + [User(input)], node := graph.start)
  }

  function Resume(c: Context, graph: Entry, humanInputs: Variables): Context {
    Enter(Restore(Save(c), graph, humanInputs), graph, "")
  }

  /** Resuming keeps the conversation, its open calls, the iteration count and
      every variable no human input overrides. */
  lemma ResumeKeeps(c: Context, graph: Entry, humanInputs: Variables)
    ensures var r := Resume(c, graph, humanInputs);
      && r.messages == c.messages + [User("")]
      && PendingCalls(r.messages) == PendingCalls(c.messages) == Save(c).pending
      && r.iteration == c.iteration && r.node == graph.start && r.chain == 0 && r.planMode == graph.planMode
      && (forall v :: v in humanInputs ==> v in r.variables && r.variables[v] == humanInputs[v])
      && (forall v :: v in c.variables && v !in humanInputs ==> v in r.variables && r.variables[v] == c.variables[v])
  {
    assert (c.messages + [User("")])[..|c.messages|] == c.messages;
  }
}
