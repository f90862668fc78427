# Verified model of the agent runtime

A Dafny model of the parts of the agent runtime whose behaviour depends on loops, recursion or the
order of events: parallel fan-out and nested execution of graphs, the tool-call batch machine with
its approvals, the artifact section editor, the chat message tree and its session cache, the
condition evaluator, bundle installation, the file-change cascade, tool reconciliation and template
substitution.

Where the source changes state step by step, the model has a class or a method with the same steps,
proved against a specification function; the properties are lemmas about that function. What lies
outside (the policy funnel, tools, humans, the scheduler, clocks, fresh ids, digests, the judgement
of a model) is an arbitrary answer, so each property holds whatever the outside does. Concurrency is
modelled as an arbitrary interleaving of steps over one ghost trace.

| file | what it models |
|---|---|
| `Options.dfy`, `Text.dfy` | optional values; substring search, slices, strip |
| `Sections.dfy`, `SectionList.dfy`, `Artifacts.dfy`, `SectionStore.dfy`, `Listings.dfy` | marker-based sections, the scan for their names, the artifact manager, runs of edits, pages and token budget |
| `Graphs.dfy`, `FanOut.dfy`, `Nesting.dfy`, `Walks.dfy` | breadth-first search, fan-in and branch graphs, nested runs, the outer loop and resuming |
| `ToolCalls.dfy`, `PlanMode.dfy`, `Retries.dfy`, `StreamedCalls.dfy`, `Checkpoints.dfy` | the four tool-call paths, plan mode on them, the error handler's retries, streamed fragments, pending calls, saving and restoring |
| `Confirmation.dfy`, `Approvals.dfy`, `Policies.dfy` | when a human is asked, how an ask is settled, what the tiers come to on each path |
| `ChatTree.dfy`, `SessionCache.dfy` | the message tree of a session, the bounded cache over the store |
| `Conditions.dfy` | the condition evaluator |
| `Bundles.dfy` | install, rollback, uninstall |
| `Aware.dfy` | debounce, bounded hash cache, gate |
| `ToolSync.dfy`, `Templates.dfy` | tool reconciliation, template substitution |

`dafny verify dfyconfig.toml` checks everything.

## What the code does that its comments and names do not say

Each of these is proved under the names given, most as an exact condition for the expected behaviour.

- A section edit comes back on load exactly when the section's two markers are both absent or well
  ordered and the new text does not hold the end marker (`Sections.RoundTripIff`). A stale marker
  hides or swallows the text.
- The search for the fan-in node follows edges back through the fork: the fork is taken for its own
  fan-in node exactly when all its branches loop back to it, no edge joins it to itself, and no
  other fan-in node is discovered before it (`FanOut.ForkMergesAtItselfIff`; by distance,
  `FanOut.NearForkMergesAtItself`; the smallest such graph, `FanOut.LoopBackMergesAtTheFork`).
- The dispatcher takes its model from the nodes it is given, so a branch whose LLM nodes name none is
  turned away, although the graph it comes from runs (`FanOut.BranchLacksModelIff`,
  `FanOut.NamelessBranch`).
- A refused approval marks the run failed and reports an error, at which the dispatcher stops reading
  and the batch ends. The error handler reads on: a later call of the batch that is then approved is
  passed over without a run or a reply (`ToolCalls.UnansweredIff`, `ToolCalls.ApprovedIsPassedOver`).
  Under the dispatcher that happens only to a run that was marked failed before
  (`ToolCalls.StoppedBatchPassesOverIff`).
- The error handler clears the error before its first attempt only, so no attempt after the first can
  succeed: either the first leaves no error, or all are made, the run stays marked failed, and from
  the second on nothing a human approves in a batch or a tool node is run (`Retries.Retry`).
- A repair turn runs a granted call without a second admission (`ToolCalls.RepairAdmitsOnce`, with such
  a turn in `ToolCalls.RepairRunsOnOneAdmission`). Only the sequential path leaves plan mode.
- A call the confirmation policy wants asked about never runs in parallel, and elsewhere only by a human
  or an approving timeout (`ToolCalls.PolicyIsKept`); but registering and unregistering tools goes past
  the policy (`ToolCalls.RegistryAsksNobody`), and what it scores is the call as the model made it, not
  the arguments that run (`ToolCalls.RewrittenIsNotScored`).
- A grant is not always a human's: the approval flow also grants without asking when the policy or
  the verdict does not want it, and on a timeout if timeouts approve. Which of these let a call run
  is `ToolCalls.AskedRunsWereGranted`; when it must have been a human or a timeout,
  `ToolCalls.HumansDecide`.
- A second ask for an action takes the answers of the first one over, and a wait that ends takes the
  entry of every other wait for the same action away (`Approvals.FirstDecides`).
- A resumed run does not go on where it was saved: it starts over, visits every node up to the saved
  one again with the iterations it has left, and comes back to it exactly when those are enough
  (`Walks.ResumedRunRepeats`, `Walks.StraightLineResume`); turns of an agent loop count too. It forgets a plan mode that is not the
  graph's own.
- An edited chat message is recorded under the message it rewords, so it is listed among its own
  siblings exactly when it rewords a first message (`ChatTree.EditIsListedIff`; for all messages of any
  reachable session, `ChatTree.ListedIff`).
- Listing sessions caches rows without their messages; the cache still mirrors the store exactly when
  no such row had any, and otherwise the next message replaces the stored history
  (`SessionCache.ChatEngine.ListSessions`, `SessionCache.ListingThenSend`).
- Evaluating a condition recurses for ever exactly when it reaches an operand with an "or" or "and"
  in it that it cannot split on, for want of whitespace of its own on both sides (`Conditions.NeverEndsIff`).
- Rolling back or uninstalling a bundle restores the stores exactly when nothing it could install was
  there before and each server has an address and a way to unregister it
  (`Bundles.RollbackRestoresIff`).
- The gate of the file watcher compares a new content with the last one that arrived, not with the
  last one it judged; the two agree exactly under the condition of `Aware.ComparedWithJudgedIff`.
  `Aware.HeldChangeIsSkipped` is the shortest run in which they do not.
- Two agents whose ids begin with the same eight alphanumeric characters take each other's tools away
  (`ToolSync.NamesMeetIff`, `ToolSync.SharedKeyRemoves`).
- A page number below zero is not refused but counts pages from the end (`Listings.PageHoldsIff`).
- Template values may hold placeholders: all orders of the variables agree on every prompt exactly
  when no value has a hole of another variable that stands for anything but that same hole
  (`Templates.OrderIrrelevantIff`; two variables whose order matters, `Templates.BracesInValuesMatter`).

## Model

| member | source | states |
|---|---|---|
| `Sections.RoundTripIff` | agent_runtime/artifact_tools.py:281-321 | For any text with something in it and any name that cannot fake a marker: what is written is what is loaded, up to surrounding whitespace, iff the marker pair is ordered or absent and the text does not contain the end marker. |
| `Sections.LoadAfterReplace` | agent_runtime/artifact_tools.py:654-662 | The positive half for every text, empty ones too. |
| `Sections.ReplaceWrites` | agent_runtime/artifact_tools.py:284-301 | What a replacement writes, marker by marker and line by line, where the section is found or at the end. |
| `Sections.BrokenPairLosesText` | agent_runtime/artifact_tools.py:284-298 | With a stale or reversed marker the text written is never the text loaded. |
| `Sections.ReplaceAgain` | agent_runtime/artifact_tools.py:281-298 | After a faithful edit the text around the block is kept character for character, so a second edit with any text, or a deletion, forgets the block and nothing else; the same edit again changes nothing. |
| `Sections.OtherSectionsKept` | agent_runtime/artifact_tools.py:281-298 | Frame: a section that neither encloses nor lies in the edited one, and that the new text does not mention, loads as before. |
| `Sections.DeleteKeepsOthers` | agent_runtime/artifact_tools.py:303-316 | The same for deletion, as long as the two halves of the text do not join into a marker of the other section. |
| `Sections.FreshLineJoinsNothing` | agent_runtime/artifact_tools.py:303-316 | They never do if what follows the block starts a line or a marker. |
| `Sections.DeletingCanJoin` | agent_runtime/artifact_tools.py:303-316 | Otherwise deleting a section can bring another into being. |
| `Sections.LoadHasNoEnd` | agent_runtime/artifact_tools.py:654-662 | A loaded section never contains its own end marker. |
| `SectionStore.TextIsAMap` | agent_runtime/artifact_tools.py:277-337 | Over every run of edits with names and texts free of marker beginnings (writes, rewrites, drops, text in front or behind), the artifact is a map from names to texts: a section loads as what was last written under its name, stripped, or as nothing, and can be dropped iff it is there. |
| `SectionStore.ListIsTheKeys` | agent_runtime/artifact_tools.py:82-96 | Over the same runs, the list of sections is the list of that map's names, each once. |
| `SectionStore.AppendsAccumulate` | agent_runtime/artifact_tools.py:299-302 | After a run of appends the text is the start followed by the appended texts, in order. |
| `SectionStore.PrependsAccumulate` | agent_runtime/artifact_tools.py:299-302 | After a run of prepends it is the texts, last first, followed by the start. |
| `SectionList.ListSections` | agent_runtime/artifact_tools.py:82-96 | The index-advancing loop computes the scan that the lemmas below are about, and terminates on every text. |
| `SectionList.ScanInvertsPrint` | agent_runtime/artifact_tools.py:82-96 | Scanning a printed document of filler and start markers gives exactly its names, in order. |
| `SectionList.NamesDistribute` | agent_runtime/artifact_tools.py:82-96 | Cut after a closed marker, a text has the names of its two halves. |
| `SectionList.ReplaceKeepsList` | agent_runtime/artifact_tools.py:284-298 | Rewriting a section that is there keeps the list of names, unless old or new text opens sections. |
| `SectionList.AppendExtendsList` | agent_runtime/artifact_tools.py:297-301 | Writing a section that is not there appends its name to the list. |
| `Artifacts.WriteSection` | agent_runtime/artifact_tools.py:284-298 | The string surgery refines the specification the section theorems are about. |
| `Artifacts.ArtifactManager.UpdateArtifact` | agent_runtime/artifact_tools.py:249-337 | Exact outcome for every request, by operation name: "append" gives the old text and then the new one, "prepend" the new one first, no operation the content or, without one, the old text; who is refused, and why; the version goes up by one; on an error, and for every other record, nothing changes. |
| `Artifacts.ArtifactManager.PatchArtifact` | agent_runtime/artifact_tools.py:518-611 | The same for patches, "replace" giving the content itself, with the phase that follows. |
| `Artifacts.EntryPointsAgree` | agent_runtime/artifact_tools.py:249-337 | The two entry points make the same edit of every operation they share. |
| `Artifacts.ArtifactManager.AdvanceGenerationPhase` | agent_runtime/artifact_tools.py:613-639 | The phase moves to any known phase, but not from "completed" or "filling" to an earlier one; text and version stay. |
| `Artifacts.ArtifactManager.LoadArtifact` | agent_runtime/artifact_tools.py:641-691 | A load is a prefix of the text or section asked for, within the preview and token limits, and cut only when it meets one. |
| `Artifacts.PhaseOverRuns` | agent_runtime/artifact_tools.py:599-605 | Over any run of patches the phase never moves back, and goes from "skeleton" to "completed" exactly by a starting edit followed later by a long rewrite. |
| `Listings.PagesCover` | agent_runtime/artifact_tools.py:387-406 | Turning all pages shows every item of the sorted list once, in order, for every positive limit. |
| `Listings.PageHoldsIff` | agent_runtime/artifact_tools.py:387-390 | A page holds something iff it is one of these or, numbered below zero, the list reaches back that far: such numbers are not refused. |
| `Listings.ContextBudget` | agent_runtime/artifact_tools.py:693-720 | The loop counts the tokens of every kind that occurs, and the kinds add up to the total. |
| `Listings.TotalAdds` | agent_runtime/artifact_tools.py:693-720 | Totals add up over artifacts, and one artifact counts a token for every four characters. |
| `Graphs.DiscoveryIsByDistance` | agent_runtime/_runtime_nodes.py:2563-2580 | Breadth-first discovery lists each reachable id once, nothing else, in order of hop distance, on every graph. |
| `Graphs.OutgoingInOrder` | agent_runtime/graph.py:245-246 | A node's outgoing edges are exactly the edges that leave it, in list order. |
| `FanOut.ReachableFrom` | agent_runtime/_runtime_nodes.py:2563-2580 | The queue loop computes that order and the set of reachable ids. |
| `FanOut.FindMergeNode` | agent_runtime/_runtime_nodes.py:2557-2593 | The loop returns the specified fan-in node. |
| `FanOut.MergeIsNearestFanIn` | agent_runtime/_runtime_nodes.py:2557-2593 | Nothing is found iff no node but the targets is reachable from every target; otherwise such a node at minimum hop distance from the first target. |
| `FanOut.ForkMergesAtItselfIff` | agent_runtime/_runtime_nodes.py:2557-2593 | On every graph, a fork is taken for its own fan-in node iff it is one (every branch loops back to it, no edge joins it to itself) and no other is discovered before it. |
| `FanOut.NearForkMergesAtItself` | agent_runtime/_runtime_nodes.py:2578-2593 | It is when every other fan-in node is farther from the first branch, and is not when one is nearer. |
| `FanOut.BuildBranchSubgraph` | agent_runtime/_runtime_nodes.py:2595-2636 | The branch graph has exactly the nodes reachable from the target without entering the fan-in node or the fork, with the induced edges in order; it is None iff the target is missing or one of those two. |
| `FanOut.InducedInOrder` | agent_runtime/_runtime_nodes.py:2632-2635 | A branch keeps exactly the edges among its nodes, in list order. |
| `FanOut.BranchIsClosed` | agent_runtime/_runtime_nodes.py:2595-2636 | An edge that leaves a branch goes into the fan-in node or the fork. |
| `FanOut.BranchValidates` | agent_runtime/graph.py:315-421 | Every branch graph passes the structural validation the dispatcher insists on. |
| `FanOut.FanOutIsSound` | agent_runtime/_runtime_nodes.py:2358-2430 | On a graph whose edges join its nodes: each branch fails to build only for an edge from the fork to itself, and is otherwise valid, smaller than the graph, and left only into the fork and the fan-in node. |
| `FanOut.BranchLacksModelIff` | agent_runtime/runtime.py:816-821 | A branch is refused for want of a model iff an LLM node is reachable in it and no reachable one names a model. |
| `FanOut.NamelessBranch` | agent_runtime/graph.py:282-287 | A graph that has a model can have a branch, valid otherwise, that has none. |
| `Nesting.BranchGraphIsBuilt` | agent_runtime/_runtime_nodes.py:2595-2636 | The graph the nested run is given is the one the builder builds. |
| `Nesting.KidsAre` | agent_runtime/_runtime_nodes.py:2411-2514 | Exactly which runs a run starts, visit by visit and in order: one branch for each edge of a fork to a node other than fork and fan-in node, unless plan mode is on or the edge is the only one; one per item of an iteration, per sub-graph or stored flow, per call of a model that plan mode does not hold back, if there is a graph and room for it; on which graph, at which depth, in which plan mode; no others. |
| `Nesting.NestingIsBounded` | agent_runtime/_runtime_nodes.py:2649-2668 | In every world, with flows that load themselves and models that write graphs as they go, from LLM and RAG nodes, the tree of runs is finite: no taller than the room under the depth limit plus the size of the largest graph in it, plus one; embedded runs stay within the limit, branches lose the fork; a run starts in plan mode only if its parent started in it or its own graph says so. |
| `Nesting.PlanModeReachesAll` | agent_runtime/runtime.py:744-753 | While no run leaves plan mode, every run nested in one that starts in it starts in it too, at any depth, and none is a parallel branch or a model's sub-graph. |
| `Nesting.OwnAddresses` | agent_runtime/_runtime_nodes.py:1995-1999 | The runs started by one run have addresses in order, no two alike, so the world may answer every branch, item and call differently. |
| `ToolCalls.ToolRunner.RunSequential` | agent_runtime/_runtime_nodes.py:688-1067 | The whole course of a sequential batch with an adversarial funnel: the gate, both admissions, the question, the run, the plan flag and the replies, call by call; it ends early exactly at unreadable JSON or, under a consumer that stops at errors, after the first call that is refused or whose sub-graph failed. |
| `ToolCalls.ToolRunner.RunTogether` | agent_runtime/_runtime_nodes.py:660-707 | The parallel path, under any interleaving: no call that the funnel or the confirmation policy would ask about is run, every other that is let through is, and each gets one reply, in input order. |
| `ToolCalls.ToolRunner.RunBatch` | agent_runtime/_runtime_nodes.py:641-707 | A batch runs in parallel exactly when the node asks for it, plan mode is off, no call steers the run and all can be read; where and why it stops early, under either kind of consumer; an error is never cleared and plan mode never turns back on. |
| `ToolCalls.ToolRunner.StepTogether` | agent_runtime/_runtime_nodes.py:1404-1493 | One step of a parallel call keeps its course: admission, the policy's veto, the run. |
| `ToolCalls.ToolRunner.RunRepair` | agent_runtime/_runtime_nodes.py:1194-1400 | The repair turn: unreadable calls are skipped, the others answered once, a refusal ends it; a call runs unasked only if neither funnel nor policy wants it asked about; an approved call runs with the arguments it was asked about, without a second admission. |
| `ToolCalls.ToolRunner.RunToolNode` | agent_runtime/_runtime_nodes.py:1524-1725 | The tool node: nothing happens iff the command is unsafe or plan mode holds the tool back, and then the error is set; otherwise the same question and answer as the sequential loop; a reply iff the tool ran, an error otherwise. |
| `PlanMode.ReadOnlyWhilePlanning` | agent_runtime/_runtime_nodes.py:728-732 | Whatever runs in plan mode, on any path, is a read-only tool or "exit_plan_mode". |
| `PlanMode.SequentialGate` | agent_runtime/_runtime_nodes.py:726-756 | On the sequential path plan mode answers itself exactly the calls that are neither read-only nor "exit_plan_mode"; any other call is admitted, or runs as a sub-graph, and goes on as it would outside plan mode. |
| `PlanMode.RepairGate` | agent_runtime/_runtime_nodes.py:1228-1261 | The same in a repair turn. |
| `PlanMode.LeavesPlanModeIff` | agent_runtime/_runtime_nodes.py:1019-1030 | A call ends plan mode iff it ran "exit_plan_mode" and its result says so; nothing turns plan mode on. |
| `PlanMode.SteerlessIff` | agent_runtime/_runtime_nodes.py:653-681 | A batch can run in parallel only if every call can be read and is none of the four control-flow tools. |
| `ToolCalls.NeverClearedNeverRuns` | agent_runtime/_runtime_nodes.py:728-963 | In every run of the four paths, a tool whose admissions were never clear and which the approval flow never granted does not run. |
| `ToolCalls.LastAdmissionLetsThrough` | agent_runtime/_runtime_nodes.py:912-963 | The last event before a tool runs is an admission that allows it and asks for nothing more, with the arguments it runs with, the second one if the call was granted; only a repair turn may run on the grant itself. |
| `ToolCalls.PolicyIsKept` | agent_runtime/tool_pipeline.py:65-89 | For every policy and every risk scorer: what the policy wants asked about, scored as the model made the call, runs in no parallel batch, and on every other path but the registry's only by a human or an approving timeout. |
| `ToolCalls.RegistryAsksNobody` | agent_runtime/_runtime_nodes.py:757-843 | On the registry's path what the funnel lets through runs unasked, under every policy. |
| `ToolCalls.RewrittenIsNotScored` | agent_runtime/_runtime_nodes.py:1434-1467 | With arguments rewritten on the way, a call the policy would want asked about can run in parallel. |
| `ToolCalls.AskedRunsWereGranted` | agent_runtime/_runtime_safety.py:138-311 | A call that was to be asked about and ran had been granted by a human, by an approving timeout under that disposition, or without asking, and then neither policy nor verdict wanted that very call, by its own risk score, asked about. |
| `ToolCalls.HumansDecide` | agent_runtime/_runtime_safety.py:138-311 | Under every policy, and without one: a run that had to be asked about was granted by a human or by a timeout where timeouts approve. |
| `ToolCalls.RepairAdmitsOnce` | agent_runtime/_runtime_nodes.py:1228-1376 | No call of a repair turn is admitted twice; a granted one runs with the arguments it was asked about. |
| `ToolCalls.ReadableAre` | agent_runtime/_runtime_nodes.py:1209-1215 | A repair turn takes exactly the calls that can be read, in order. |
| `ToolCalls.RepairRunsOnOneAdmission` | agent_runtime/_runtime_nodes.py:1271-1290 | A call asked about and approved runs on the one admission that wanted it asked about. |
| `ToolCalls.PendingAfterBatch` | agent_runtime/_runtime_checkpoint.py:19-37 | A checkpoint taken after a batch reports the whole batch as pending while nothing was answered, nothing once anything was. |
| `Retries.Retry` | agent_runtime/_runtime_nodes.py:2262-2355 | Either the first attempt leaves no error and is the only one, or all attempts are made and the run stays failed, and from the second on no grant of a batch or a tool node leads to a run. |
| `Retries.RunAttempt` | agent_runtime/_runtime_nodes.py:2299-2346 | One attempt, a turn with its batch and repair turns or a tool node, read past its errors: an error is never cleared, and in a failed run no grant outside repair turns leads to a run. |
| `ToolCalls.SafeAppend` | agent_runtime/_runtime_nodes.py:728-963 | The invariant of every step: a run is added to the trace only if what came before clears it (plan gate, admission, approval). |
| `ToolCalls.UnansweredIff` | agent_runtime/_runtime_nodes.py:859-963 | A readable call of a sequential batch goes unanswered in exactly three cases: a sub-graph, a refusal, or a grant in a run already marked failed. |
| `ToolCalls.AnsweredAre` | agent_runtime/_runtime_nodes.py:688-1067 | The replies of a sequential batch are those of the answered calls, in the order of the calls. |
| `ToolCalls.StoppedBatchPassesOverIff` | agent_runtime/runtime.py:892-897 | Under the dispatcher, which stops at the first error, a granted call is passed over iff the run entered the batch failed. |
| `ToolCalls.ApprovedIsPassedOver` | agent_runtime/_runtime_nodes.py:900-911 | Under a consumer that reads on: of two calls the first is refused and the second approved by a human, and neither is run or answered. |
| `Checkpoints.ExtractPendingToolCalls` | agent_runtime/_runtime_checkpoint.py:19-37 | The reverse scan computes the specified pending calls. |
| `Checkpoints.PendingIs` | agent_runtime/_runtime_checkpoint.py:19-37 | Pending calls are those of the last message that is neither system nor user, if it is the assistant's. |
| `Checkpoints.PendingUntilFirstReply` | agent_runtime/_runtime_checkpoint.py:19-37 | A batch is pending, whatever user and system messages follow, until its first reply, and then nothing is. |
| `Confirmation.AsksIff` | agent_runtime/confirmation_policy.py:82-105 | A human is asked: without a policy iff the verdict wants it; under the tier of the tool, override or default, always, never, or iff the score is at least the threshold. |
| `Confirmation.ScoreIs` | agent_runtime/confirmation_policy.py:107-133 | The score is 0.9 for destructive text, else 0.6 for a network address, else 0.3 for a writing name, else 0.0, for all calls the policy scores. |
| `Policies.DemandsIff` | agent_runtime/confirmation_policy.py:82-133 | What the policy wants asked about, in terms of tier, threshold and the signs of the call alone. |
| `Policies.DemandedRunsAreGranted` | agent_runtime/tool_pipeline.py:65-89 | On every path but the registry's, a call so demanded runs only by a human or an approving timeout, and not in parallel. |
| `Policies.ParallelByTier` | agent_runtime/_runtime_nodes.py:1436-1444 | A call of a parallel batch that the funnel lets through runs iff the policy does not demand a question. |
| `Policies.RepairByTier` | agent_runtime/_runtime_nodes.py:1262-1290 | In a repair turn such a call is asked about iff the policy demands it, and runs at once otherwise. |
| `Policies.FunnelByTier` | agent_runtime/tool_pipeline.py:76-88 | On the sequential path and at a tool node a demanded call is never let through at first. |
| `Walks.Dispatch` | agent_runtime/runtime.py:839-1060 | The outer loop, with the agent loop inside a visit, makes exactly the visits of the specified walk and counts visits and turns, past the limit by one at most. |
| `Walks.WalkLeads` | agent_runtime/graph.py:248-281 | A walk goes where its visits lead: a result takes the first edge with that label, else the first that means the same (truthy or falsy words, any case), else the first without a label, else the first; the only edge is taken whatever the result; staying and jumping; and it ends only when nothing follows or the iterations are used up. |
| `Walks.ResumedRunRepeats` | agent_runtime/_runtime_checkpoint.py:94-170 | A run saved at a visit and resumed makes all visits from the start to the saved one again, in order, if it is led alike, and comes back to it iff the limit exceeds the saved count plus what its own visits and agent-loop turns before it take; its open calls are still open, its plan mode is the graph's. |
| `Walks.StraightLineResume` | agent_runtime/graph.py:248-281 | On a graph without branching, whatever conditions answer, a run saved some turns into a visit comes back to it iff the limit exceeds twice the iterations before that visit plus those turns plus one, if its visits take as many turns as before. |
| `StreamedCalls.Collect` | agent_runtime/_runtime_nodes.py:412-428 | The fold keeps, for each index, the concatenation of its fragments in arrival order, and the indices in order of first arrival. |
| `StreamedCalls.IdIs` | agent_runtime/_runtime_nodes.py:412-428 | The last id that is not empty wins; without one the first fragment decides between fallback, none and empty. |
| `StreamedCalls.ArrivalsInOrder` | agent_runtime/_runtime_nodes.py:412-437 | The calls stand in the order in which their first fragments arrived, each once. |
| `Text.JoinedAll` | agent_runtime/_runtime_nodes.py:412-428 | Joining texts in two goes is joining them at once: they stand in order, with nothing between. |
| `StreamedCalls.Reassembles` | agent_runtime/_runtime_nodes.py:412-437 | However a list of calls is cut up and interleaved, with ids missing, null or repeated after the first, collecting the stream gives it back. |
| `Approvals.FirstDecides` | agent_runtime/_runtime_safety.py:19-49 | Of all that happens while an ask waits, the first answer that counts settles it, unless a second ask for the action or the end of another wait for it cuts it off before. |
| `Approvals.SafetyDesk.Happens` | agent_runtime/_runtime_safety.py:184-206 | Answers, other asks and other waits that end keep the futures and both registries as that standing says. |
| `Approvals.SafetyDesk.Resolve` | agent_runtime/_runtime_safety.py:19-49 | An answer settles at most the two futures of its action, and no settled future again. |
| `Approvals.SafetyDesk.GatewayResolve` | agent_runtime/safety.py:404-464 | The gateway records a pending action once and settles its own future. |
| `Approvals.SafetyDesk.AwaitSafetyApproval` | agent_runtime/_runtime_safety.py:125-311 | Nobody is asked under the tier "never", below the threshold of the tier "risk", or without a policy when the verdict does not want it, and then the call is granted and nothing registered; otherwise a human is asked. Whatever other waits do meanwhile, the run goes on iff the answer that settled the ask approves or none did and timeouts approve, otherwise the error is set; no entry for the action is left. |
| `ChatTree.OnePath` | agent_runtime/chat_engine.py:155-169 | Every message of a session has exactly one path from a root, its chain of parents. |
| `ChatTree.ChainsKept` | agent_runtime/chat_engine.py:171-184 | Adding messages changes no existing message's path. |
| `ChatTree.ChatSession.GetLinearBranch` | agent_runtime/chat_engine.py:155-169 | The loop and the reversal return that path's messages, root first. |
| `ChatTree.ChatSession.AddMessage` | agent_runtime/chat_engine.py:171-184 | The message is linked under the parent asked for or the last message without a parent; that message, and no other, records it, last; ids stay unique, parents come first. |
| `ChatTree.ChatSession.Send` | agent_runtime/chat_engine.py:303-365 | A turn extends the active conversation by the question and the joined tokens, and changes no other path. |
| `ChatTree.ChatSession.Edit` | agent_runtime/chat_engine.py:409-444 | The active conversation becomes the old one with its last entry replaced; every old path stays. |
| `ChatTree.ChatSession.SwitchBranch` | agent_runtime/chat_engine.py:446-463 | Any message of the session can become the active one, and its conversation the active one. |
| `ChatTree.ChatSession.Fork` | agent_runtime/chat_engine.py:368-407 | The new session's active conversation is the prefix, entry by entry, and it holds nothing else. |
| `ChatTree.EditIsListedIff` | agent_runtime/chat_engine.py:427-436 | An edit shows up among its own siblings iff it rewords a first message. |
| `ChatTree.ListedIff` | agent_runtime/chat_engine.py:465-491 | In every reachable session a message is listed among its own siblings iff it has no parent, or its parent is there and it is no edit: child lists hold exactly what was recorded under them. |
| `SessionCache.Sorted` | agent_runtime/chat_engine.py:294-301 | Sorting by time gives the same ids in order of time. |
| `SessionCache.Oldest` | agent_runtime/chat_engine.py:294-301 | What is dropped from a full cache is no newer than what stays and spares the latest entry if none is newer. |
| `SessionCache.ChatEngine.EvictSessions` | agent_runtime/chat_engine.py:294-301 | At most 128 sessions stay, the most recently updated, and the cache goes on mirroring the store. |
| `SessionCache.ChatEngine.GetSession` | agent_runtime/chat_engine.py:267-276 | With a mirroring cache the result is what the store holds, cached or not; a load leaves the most recently updated in the cache, at most 128. |
| `SessionCache.ChatEngine.CreateSession` | agent_runtime/chat_engine.py:248-265 | A new session is stored, and still cached unless the clock has run backwards; the cache keeps the most recent. |
| `SessionCache.ChatEngine.Rewrite` | agent_runtime/chat_engine.py:784-789 | Saving after a change of messages writes the store from the session as it is known, and the cache goes on mirroring the store. |
| `SessionCache.ChatEngine.AddBranch` | agent_runtime/chat_engine.py:399-400 | So does a branch, which is cached without trimming. |
| `SessionCache.ChatEngine.DeleteSession` | agent_runtime/chat_engine.py:286-292 | A deleted session is in neither; the answer says whether it was cached, not whether it existed. |
| `SessionCache.ChatEngine.ListSessions` | agent_runtime/chat_engine.py:278-284 | Each session once, newest first, all of the store if it has at most fifty; the cache mirrors the store afterwards iff no row that was added had messages. |
| `SessionCache.ListingThenSend` | agent_runtime/chat_engine.py:278-284 | After a listing, the next message to a session that was not cached replaces its history. |
| `Conditions.EvaluateMeansParse` | agent_runtime/_runtime_helpers.py:63-93 | For every string: with a stack deeper than it is long, the recursive splitting gives the meaning of the formula it reads as, "or" weakest and "not" strongest. |
| `Conditions.ParsePrint` | agent_runtime/_runtime_helpers.py:75-93 | Reading a printed or-of-ands-of-nots gives it back. |
| `Conditions.PrintedMeans` | agent_runtime/_runtime_helpers.py:63-93 | Evaluating a printed formula ends, with its standard truth value, whatever its atoms answer. |
| `Conditions.WordsDecide` | agent_runtime/_runtime_helpers.py:63-93 | Empty and "false" are false, "true" is true, "not" turns the rest round, in any letter case and with any whitespace around. |
| `Conditions.WordCharsAre` | agent_runtime/_runtime_helpers.py:75-82 | Letters, digits and the underscore make words. |
| `Text.LowerIs` | agent_runtime/_runtime_helpers.py:68-71 | Lowering turns each capital into its small letter and leaves every other character as it is. |
| `Text.SpacesAre` | agent_runtime/_runtime_helpers.py:64-64 | The ASCII characters that stripping takes away. |
| `Conditions.NeverEndsIff` | agent_runtime/_runtime_helpers.py:75-89 | No stack is deep enough iff evaluation reaches an operand with a stuck "or" or "and". |
| `Conditions.StuckOverflows` | agent_runtime/_runtime_helpers.py:75-89 | An expression that contains an operator word but cannot be split on it overflows every stack. |
| `Conditions.PartsAreJoined` | agent_runtime/_runtime_helpers.py:76-84 | No part of a split can be split again. |
| `Bundles.BundleInstaller.Install` | agent_runtime/bundle_package.py:351-413 | Every facet is tried; on any failure the noted items are removed and the registry is untouched, otherwise the record is written. |
| `Bundles.BundleInstaller.InstallFacet` | agent_runtime/bundle_package.py:229-349 | Exactly when a facet of each kind is refused; otherwise it is stored and noted. |
| `Bundles.RollbackRestoresIff` | agent_runtime/bundle_package.py:386-398 | Removing what an install noted restores all six stores iff every facet it could install was new and removable, for every manifest and every prior state. |
| `Bundles.EveryFacetInstalled` | agent_runtime/bundle_package.py:373-384 | Without failures every facet is noted, in order, and is in its store. |
| `Bundles.LastFacetIsHeld` | agent_runtime/bundle_package.py:229-349 | After any run of facets each store holds what the last facet for its place brought: package, content, connector with its kind kept, graph, hook, server. |
| `Bundles.RemovalRemoves` | agent_runtime/bundle_package.py:415-476 | A removal takes away exactly the noted entries, store by store. |
| `Bundles.InstallThenUninstall` | agent_runtime/bundle_package.py:478-487 | A bundle installed and uninstalled leaves no trace iff it was new. |
| `Aware.DebounceLayer.Process` | agent_runtime/aware_engine.py:77-95 | Passes iff the window is over; emitted events of a path stay in order without duplicates, passes of a path are a window apart, and nothing is lost. |
| `Aware.DebounceLayer.FlushPending` | agent_runtime/aware_engine.py:97-111 | What waits is emitted in order; afterwards the latest arrival of every path has been emitted. |
| `Aware.KeptPassing` | agent_runtime/aware_engine.py:77-95 | A passing event keeps order, uniqueness and completeness of what is emitted or waiting. |
| `Aware.KeptFlushing` | agent_runtime/aware_engine.py:97-111 | So does emitting one waiting event. |
| `Aware.ASTDiffLayer.Process` | agent_runtime/aware_engine.py:121-154 | Blocks exactly a repeat of the path's last hash while the path is among the last to enter the cache: only true repeats, and all of them while the paths fit. |
| `Aware.RemembersEntering` | agent_runtime/aware_engine.py:131-137 | The bounded cache stays a part of the unbounded map of last hashes, and equals it while it fits. |
| `Aware.AwareEngine.ProcessEvent` | agent_runtime/aware_engine.py:262-289 | Which tier answers, exactly: none iff held back, the second iff the content is a repeat of the path's last hash while the path is among the last to enter the cache, the third otherwise, with the gate's answer; passed events are blocked ones plus judged ones, always. |
| `Aware.ComparedWithJudgedIff` | agent_runtime/aware_engine.py:262-289 | In every reachable state, the old content the gate gets is the one it last judged iff the last non-empty content that came since, held back or blocked, is that content again, or none came and what it judged was not empty or nothing had ever come. |
| `ToolSync.PrefixesDisjoint` | agent_runtime/capability_tools.py:61-64 | No name lies under the prefixes of two agents with different keys, whatever their lengths. |
| `ToolSync.NamesMeetIff` | agent_runtime/capability_tools.py:56-64 | Tools of two agents can share a name iff the agents share a key. |
| `ToolSync.KeyIs` | agent_runtime/capability_tools.py:61-64 | An agent's key is made of its id's letters and digits in order, the first eight if there are more. |
| `ToolSync.NameIs` | agent_runtime/capability_tools.py:56-64 | A tool's name is the prefix with the key and then the capability's id, with an underscore for every other character. |
| `ToolSync.ToolRegistry.SyncAgentTools` | agent_runtime/capability_tools.py:101-203 | The two loops leave the specified registry and report exactly what they registered, skipped and removed. |
| `ToolSync.AllReported` | agent_runtime/capability_tools.py:119-187 | The report accounts for every capability with an id once: registered, or skipped for want of a schema or because it was refused. |
| `ToolSync.LastCapabilityWins` | agent_runtime/capability_tools.py:119-187 | Of two capabilities of one name the later one is registered, with its own parameters. |
| `ToolSync.GoneIff` | agent_runtime/capability_tools.py:189-199 | A tool is gone afterwards iff it bears the agent's prefix, no capability asks for it, and the registry lists its tools and lets it go; every other is as it was. |
| `ToolSync.Converges` | agent_runtime/capability_tools.py:189-199 | Afterwards the agent's tools are wanted ones with all that were registered; no other tool has changed. |
| `ToolSync.UnchangedIff` | agent_runtime/capability_tools.py:101-203 | A reconciliation changes nothing iff all it would register is there already as it would be and no stale tool is there that the registry lets go. |
| `ToolSync.SyncAgain` | agent_runtime/capability_tools.py:101-203 | So a second one changes nothing, as long as the registry does not meanwhile accept what it refused or let go what it kept. |
| `ToolSync.SyncsCommute` | agent_runtime/capability_tools.py:101-203 | Reconciliations of agents with different keys can be done in either order. |
| `ToolSync.SharedKeyRemoves` | agent_runtime/capability_tools.py:194-199 | An agent's reconciliation removes the tools of another agent with the same key. |
| `Templates.InstantiateTemplate` | agent_runtime/agent_templates.py:383-404 | Every prompt is filled with the merged variables; other nodes and the registry stay. |
| `Templates.MergeLookup` | agent_runtime/agent_templates.py:393-393 | The caller's values win over the template's defaults. |
| `Templates.SequentialIsSimultaneous` | agent_runtime/agent_templates.py:395-399 | Replacing one placeholder after the other is filling all at once, on prompts and values of brace-free text and holes, if no value has a hole of another variable (but one that stands for itself). |
| `Templates.OrderIrrelevantIff` | agent_runtime/agent_templates.py:398-399 | All orders of the variables agree on every prompt iff no value has a hole of another variable that stands for anything but that hole. |
| `Templates.BracesInValuesMatter` | agent_runtime/agent_templates.py:398-399 | Two variables with which two orders fill a prompt differently. |
| `Templates.NoneRemains` | agent_runtime/agent_templates.py:398-399 | No placeholder of a given variable remains anywhere in the result, if no value brings it back. |
| `Templates.UnknownSurvives` | agent_runtime/agent_templates.py:398-399 | A placeholder without a value stands in the filled text where it stood, between the filled parts, whatever the values. |

## Left out

- LLM calls, retries, token accounting, telemetry, logging, events to the user interface, memory, retrieval, planning, verification and ACP nodes: effects whose results the model takes as given or does not need.
- HTTP, RPC and file formats; JSON text is abstracted to a parsed value or none; store writes and removals are assumed to succeed.
- Text is a sequence of characters; word characters and letter case are ASCII only, whitespace is the ASCII set Python strips.
- What a node's visit comes to is an arbitrary outcome, with any number of agent-loop turns; in nested runs the visits are arbitrary altogether, as nesting is about which runs start which; of the dispatcher's checks of a graph the model has the structural ones and the one for a model. Runs started by the `subagent_spawn` tool are not part of the tree.
- The loop around a repair turn is part of an attempt of the error handler only; the repeat-error escalation, tool-error lists and tool hooks, the text of replies. Attempts at nodes other than LLM and tool nodes are not modelled.
- The kernel pipeline behind the funnel, of which the model takes one rule: a question nobody there can answer does not let the call through. An exception while scoring, which the funnel takes for no wish to ask, is not modelled.
- A branch graph does not carry the graph's confirmation policy and error settings in the source either; that inheritance is not modelled.
- A time limit passes by no answer having come; a cancelled run is not modelled. Whose answer it was, beyond the guard's confirmation, is outside.
- Guard back ends and risk patterns: the score is computed from the signs that patterns look for.
- What atoms of a condition mean (context checks, comparisons, containment) is an arbitrary answer that does not fail; literal coercion and comparison are not modelled.
- Messages are values in their session's list, so two sessions never share a message object; the source copies them too.
- Sessions are known by id, messages and time; titles, modes and metadata are not modelled, and the two messages a turn adds are not interleaved with another turn on the same session.
- `ChatTree.ChatSession.Fork`: does not say which new ids the copies get, because they are random.
- The six facet lists of a bundle are one list in installation order, removal goes through that list and not store by store, and the hooks of all events are one list; a step that raises instead of reporting an error, and so escapes without a rollback, is not modelled.
- The server registry behind the bundle installer is a list of addresses; its own state is outside.
- Digests are functions of the content; the model behind the gate is a function of old and new content.
- Reading the manifest's tool entries, tool schemas and the door behind a tool; the tool registry may refuse any name.
- Filters and sort of artifact listings, the context texts made from them, search and export, and policies beyond "may update": selections and formatting without a property across operations.
- Catalogue, marketplace, audit, key and authentication modules: field copying and storage.
- Prompts and values of templates with stray braces, which are no text with holes.
- The list of pending calls that a resumed run carries in its metadata, which no code of the runtime reads: the model follows the calls that are open in the conversation.
