/** The artifact manager: the two patch entry points over records that are
    rewritten in place, and the life cycle of a record. */
module Artifacts {
  import opened Options
  import opened Text
  import opened Sections
  import opened SectionList

  datatype Refusal = NotFound | NotAllowed | BadOperation | ContentRequired | AnchorRequired | NoSuchSection | Regress

  datatype Status = Ok | Error(why: Refusal)

  // ---- what a request does to the text ----

  /** One edit of an artifact's text, however it was requested. */
  datatype Edit =
    | Keep
    | Rewrite(text: string)
    | Append(text: string)
    | Prepend(text: string)
    | PutSection(name: string, text: string)
    | DropSection(name: string)

  datatype Request = Granted(edit: Edit) | Refused(why: Refusal)

  /** The edit `update_artifact` was asked for; no operation means a rewrite. */
  function UpdateRequest(operation: string, content: Option<string>, anchor: string): Request {
    if operation == "" then Granted(if content.Some? then Rewrite(content.value) else Keep)
    else if operation !in {"replace_section", "append", "prepend", "delete_section"} then Refused(BadOperation)
    else if content.None? && operation != "delete_section" then Refused(ContentRequired)
    else if operation == "append" then Granted(Append(content.value))
    else if operation == "prepend" then Granted(Prepend(content.value))
    else if anchor == "" then Refused(AnchorRequired)
    else if operation == "replace_section" then Granted(PutSection(anchor, content.value))
    else Granted(DropSection(anchor))
  }

  /** The edit `patch_artifact` was asked for. */
  function PatchRequest(operation: string, content: string, section: string): Request {
    if operation == "replace" then Granted(Rewrite(content))
    else if operation == "append" then Granted(Append(content))
    else if operation == "prepend" then Granted(Prepend(content))
    else if operation !in {"section_replace", "replace_section", "delete_section"} then Refused(BadOperation)
    else if section == "" then Refused(AnchorRequired)
    else if operation == "delete_section" then Granted(DropSection(section))
    else Granted(PutSection(section, content))
  }

  /** The text after an edit, or None when the section to drop is not there. */
  function Edited(t: string, e: Edit): Option<string> {
    match e
    case Keep => Some(t)
    case Rewrite(c) => Some(c)
    case Append(c) => Some(t + c)
    case Prepend(c) => Some(c + t)
    case PutSection(a, c) => Some(ReplaceSection(t, MarkersOf(a), c))
    case DropSection(a) => if Marked(t, MarkersOf(a)) then Some(DeleteSection(t, MarkersOf(a))) else None
  }

  /** The two entry points agree on every operation they share. */
  lemma EntryPointsAgree(operation: string, content: string, anchor: string)
    requires operation in {"replace_section", "append", "prepend", "delete_section"}
    ensures UpdateRequest(operation, Some(content), anchor) == PatchRequest(operation, content, anchor)
  {
  }

  // ---- the generation phase ----

  function PhaseRank(phase: string): nat {
    if phase == "filling" then 1 else if phase == "completed" then 2 else 0
  }

  /** The phase after a successful patch. */
  function PatchedPhase(phase: string, operation: string, size: nat): string {
    if phase == "skeleton" && operation in {"append", "section_replace", "replace_section"} then "filling"
    else if phase == "filling" && operation == "replace" && size > 2000 then "completed"
    else phase
  }

  class ArtifactRecord {
    var content: string
    var version: nat
    var phase: string
    var updatedAt: int

    constructor (text: string, now: int)
      ensures content == text && version == 1 && phase == "skeleton" && updatedAt == now
    {
      content, version, phase, updatedAt := text, 1, "skeleton", now;
    }
  }

  class ArtifactManager {
    var artifacts: map<string, ArtifactRecord>
    /** Agents with a policy, and whether it allows updates. */
    var mayUpdate: map<string, bool>

    /** Every id has a record of its own. */
    ghost predicate Valid()
      reads this
    {
      forall a, b | a in artifacts && b in artifacts && a != b :: artifacts[a] != artifacts[b]
    }

    constructor ()
      ensures Valid() && artifacts == map[] && mayUpdate == map[]
    {
      artifacts, mayUpdate := map[], map[];
    }

    method CreateArtifact(id: string, text: string, now: int)
      requires Valid() && id !in artifacts
      modifies this`artifacts
      ensures Valid() && id in artifacts && fresh(artifacts[id])
      ensures artifacts.Keys == old(artifacts.Keys) + {id}
      ensures forall k | k in old(artifacts) :: artifacts[k] == old(artifacts[k])
      ensures artifacts[id].content == text && artifacts[id].version == 1 && artifacts[id].phase == "skeleton"
    {
      var rec := new ArtifactRecord(text, now);
      artifacts := artifacts[id := rec];
    }

    predicate Denied(agent: string)
      reads this
    {
      agent in mayUpdate && !mayUpdate[agent]
    }

    /** Rewrites one record; a refused request changes nothing. */
    method UpdateArtifact(id: string, agent: string, content: Option<string>, operation: string, anchor: string, now: int)
      returns (status: Status)
      requires Valid()
      modifies artifacts.Values
      ensures Valid()
      ensures status == (
        if id !in artifacts then Error(NotFound)
        else if Denied(agent) then Error(NotAllowed)
        else match UpdateRequest(operation, content, anchor)
          case Refused(why) => Error(why)
          case Granted(e) => if Edited(old(artifacts[id].content), e).Some? then Ok else Error(NoSuchSection))
      ensures status.Ok? ==>
        && Some(artifacts[id].content) == Edited(old(artifacts[id].content), UpdateRequest(operation, content, anchor).edit)
        && artifacts[id].version == old(artifacts[id].version) + 1
        && artifacts[id].phase == old(artifacts[id].phase) && artifacts[id].updatedAt == now
      ensures status.Ok? && operation == "" ==>
        artifacts[id].content == if content.Some? then content.value else old(artifacts[id].content)
      ensures status.Ok? && operation == "append" ==> content.Some? && artifacts[id].content == old(artifacts[id].content) + content.value
      ensures status.Ok? && operation == "prepend" ==> content.Some? && artifacts[id].content == content.value + old(artifacts[id].content)
      ensures status.Ok? && operation == "replace_section" ==>
        content.Some? && artifacts[id].content == ReplaceSection(old(artifacts[id].content), MarkersOf(anchor), content.value)
      ensures status.Ok? && operation == "delete_section" ==> var t, m := old(artifacts[id].content), MarkersOf(anchor);
        Marked(t, m) && artifacts[id].content == DeleteSection(t, m)
      ensures status.Ok? <==> (
        && id in artifacts && (agent in mayUpdate ==> mayUpdate[agent])
        && (|| operation == ""
            || (operation in {"append", "prepend"} && content.Some?)
            || (operation == "replace_section" && content.Some? && anchor != "")
            || (operation == "delete_section" && anchor != "" && Marked(old(artifacts[id].content), MarkersOf(anchor)))))
      ensures forall k | k in artifacts && (k != id || status.Error?) :: unchanged(artifacts[k])
    {
      hide ReplaceSection, DeleteSection, Has, MarkersOf;
      if id !in artifacts { return Error(NotFound); }
      var rec := artifacts[id];
      if Denied(agent) { return Error(NotAllowed); }
      if operation != "" {
        if operation !in {"replace_section", "append", "prepend", "delete_section"} { return Error(BadOperation); }
        if content.None? && operation != "delete_section" { return Error(ContentRequired); }
        if operation == "replace_section" {
          if anchor == "" { return Error(AnchorRequired); }
          rec.content := WriteSection(rec.content, anchor, content.value);
        } else if operation == "append" {
          rec.content := rec.content + content.value;
        } else if operation == "prepend" {
          rec.content := content.value + rec.content;
        } else {
          if anchor == "" { return Error(AnchorRequired); }
          var cut := CutSection(rec.content, anchor);
          if cut.None? { return Error(NoSuchSection); }
          rec.content := cut.value;
        }
      } else if content.Some? {
        rec.content := content.value;
      }
      rec.updatedAt := now;
      rec.version := rec.version + 1;
      return Ok;
    }

    /** The incremental entry point: the same edits, other names for two of them,
        and the phase moves along. */
    method PatchArtifact(id: string, operation: string, content: string, section: string, agent: string, now: int)
      returns (status: Status)
      requires Valid()
      modifies artifacts.Values
      ensures Valid()
      ensures status == (
        if id !in artifacts then Error(NotFound)
        else if PatchRequest(operation, content, section) == Refused(BadOperation) then Error(BadOperation)
        else if Denied(agent) then Error(NotAllowed)
        else match PatchRequest(operation, content, section)
          case Refused(why) => Error(why)
          case Granted(e) => if Edited(old(artifacts[id].content), e).Some? then Ok else Error(NoSuchSection))
      ensures status.Ok? ==>
        && Some(artifacts[id].content) == Edited(old(artifacts[id].content), PatchRequest(operation, content, section).edit)
        && artifacts[id].version == old(artifacts[id].version) + 1
        && artifacts[id].phase == PatchedPhase(old(artifacts[id].phase), operation, |content|)
        && artifacts[id].updatedAt == now
      ensures status.Ok? && operation == "replace" ==> artifacts[id].content == content
      ensures status.Ok? && operation == "append" ==> artifacts[id].content == old(artifacts[id].content) + content
      ensures status.Ok? && operation == "prepend" ==> artifacts[id].content == content + old(artifacts[id].content)
      ensures status.Ok? && operation in {"section_replace", "replace_section"} ==>
        artifacts[id].content == ReplaceSection(old(artifacts[id].content), MarkersOf(section), content)
      ensures status.Ok? && operation == "delete_section" ==> var t, m := old(artifacts[id].content), MarkersOf(section);
        Marked(t, m) && artifacts[id].content == DeleteSection(t, m)
      ensures status.Ok? <==> (
        && id in artifacts && (agent in mayUpdate ==> mayUpdate[agent])
        && (|| operation in {"replace", "append", "prepend"}
            || (operation in {"section_replace", "replace_section"} && section != "")
            || (operation == "delete_section" && section != "" && Marked(old(artifacts[id].content), MarkersOf(section)))))
      ensures forall k | k in artifacts && (k != id || status.Error?) :: unchanged(artifacts[k])
    {
      hide ReplaceSection, DeleteSection, Has, MarkersOf;
      if id !in artifacts { return Error(NotFound); }
      var rec := artifacts[id];
      if operation !in {"replace", "append", "prepend", "section_replace", "replace_section", "delete_section"} {
        return Error(BadOperation);
      }
      if Denied(agent) { return Error(NotAllowed); }
      if operation in {"replace", "section_replace", "replace_section"} {
        if operation in {"section_replace", "replace_section"} {
          if section == "" { return Error(AnchorRequired); }
          rec.content := WriteSection(rec.content, section, content);
        } else {
          rec.content := content;
        }
      } else if operation == "append" {
        rec.content := rec.content + content;
      } else if operation == "prepend" {
        rec.content := content + rec.content;
      } else {
        if section == "" { return Error(AnchorRequired); }
        var cut := CutSection(rec.content, section);
        if cut.None? { return Error(NoSuchSection); }
        rec.content := cut.value;
      }
      rec.updatedAt := now;
      rec.version := rec.version + 1;
      if rec.phase == "skeleton" && operation in {"append", "section_replace", "replace_section"} {
        rec.phase := "filling";
      } else if rec.phase == "filling" && operation == "replace" && |content| > 2000 {
        rec.phase := "completed";
      }
      return Ok;
    }

    /** Moves the phase forward or leaves it, never back, and touches no text. */
    method AdvanceGenerationPhase(id: string, target: string, now: int) returns (status: Status)
      requires Valid()
      modifies artifacts.Values
      ensures Valid()
      ensures status == (
        if id !in artifacts then Error(NotFound)
        else if target !in {"skeleton", "filling", "completed"} then Error(BadOperation)
        else if (target, old(artifacts[id].phase)) in {("skeleton", "filling"), ("skeleton", "completed"), ("filling", "completed")} then Error(Regress)
        else Ok)
      ensures status.Ok? ==>
        && artifacts[id].phase == target && artifacts[id].updatedAt == now
        && artifacts[id].content == old(artifacts[id].content) && artifacts[id].version == old(artifacts[id].version)
      ensures forall k | k in artifacts && (k != id || status.Error?) :: unchanged(artifacts[k])
    {
      if id !in artifacts { return Error(NotFound); }
      var rec := artifacts[id];
      if target !in {"skeleton", "filling", "completed"} { return Error(BadOperation); }
      var order := ["skeleton", "filling", "completed"];
      var current := if rec.phase in order then PhaseRank(rec.phase) else 0;
      if PhaseRank(target) < current { return Error(Regress); }
      rec.phase := target;
      rec.updatedAt := now;
      return Ok;
    }

    /** A section's text when one is named, else the whole text; then cut to the
        preview and to the token budget. */
    method LoadArtifact(id: string, previewOnly: bool, section: string, maxTokens: nat)
      returns (status: Status, text: string, names: seq<string>)
      requires Valid()
      ensures status == if id in artifacts then Ok else Error(NotFound)
      ensures status.Ok? ==>
        var whole := if section == "" then artifacts[id].content else LoadSection(artifacts[id].content, MarkersOf(section));
        && names == SectionNames(artifacts[id].content)
        && text <= whole
        && (previewOnly ==> |text| <= 500)
        && (maxTokens > 0 ==> |text| <= 4 * maxTokens)
        && (text == whole || (previewOnly && |text| == 500) || (maxTokens > 0 && |text| == 4 * maxTokens))
    {
      text, names := "", [];
      if id !in artifacts { return Error(NotFound), text, names; }
      var rec := artifacts[id];
      text := rec.content;
      if section != "" { text := ReadSection(text, section); }
      if previewOnly { text := text[..if |text| < 500 then |text| else 500]; }
      if maxTokens > 0 { text := text[..if |text| < maxTokens * 4 then |text| else maxTokens * 4]; }
      names := ListSections(rec.content);
      status := Ok;
    }
  }

  method ReadSection(content: string, name: string) returns (r: string)
    ensures r == LoadSection(content, MarkersOf(name))
  {
    var m := MarkersOf(name);
    if Has(content, m.start) && Has(content, m.end) {
      r := Strip(Slice(content, Find(content, m.start, 0) + |m.start|, Find(content, m.end, 0)));
    } else {
      r := "";
    }
  }

  /** Writes between the first markers, or appends a new block. */
  method WriteSection(content: string, name: string, text: string) returns (r: string)
    ensures r == ReplaceSection(content, MarkersOf(name), text)
  {
    var m := MarkersOf(name);
    if Has(content, m.start) && Has(content, m.end) {
      var before := content[..Find(content, m.start, 0)];
      var after := content[Find(content, m.end, 0) + |m.end|..];
      r := before + m.start + "\n" + text + "\n" + m.end + after;
      assert r == before + Block(m, text) + after;
    } else {
      r := content + ("\n" + m.start + "\n" + text + "\n" + m.end);
      assert r == content + ("\n" + Block(m, text));
    }
  }

  method CutSection(content: string, name: string) returns (r: Option<string>)
    ensures r == Edited(content, DropSection(name))
  {
    var m := MarkersOf(name);
    if Has(content, m.start) && Has(content, m.end) {
      r := Some(content[..Find(content, m.start, 0)] + content[Find(content, m.end, 0) + |m.end|..]);
    } else {
      r := None;
    }
  }

  // ---- runs of patches ----

  /** A successful patch of a record, as its phase sees it. */
  datatype Patch = Patch(operation: string, size: nat)

  function PhaseAfter(phase: string, run: seq<Patch>): string
    decreases |run|
  {
    if run == [] then phase
    else PhaseAfter(PatchedPhase(phase, run[0].operation, run[0].size), run[1..])
  }

  /** Over any run of patches the phase never moves back, and it reaches
      "completed" from "skeleton" only through an edit that starts the filling
      followed, later, by a long full replace. */
  lemma {:induction false} PhaseOverRuns(phase: string, run: seq<Patch>)
    requires phase in {"skeleton", "filling", "completed"}
    ensures PhaseAfter(phase, run) in {"skeleton", "filling", "completed"}
    ensures PhaseAfter(phase, run) == "skeleton" ==> phase == "skeleton"
    ensures phase == "completed" ==> PhaseAfter(phase, run) == "completed"
    ensures phase == "filling" ==>
      (PhaseAfter(phase, run) == "completed" <==> exists j :: Finishes(run, j))
    ensures phase == "skeleton" ==>
      (PhaseAfter(phase, run) == "completed" <==> exists i, j :: Starts(run, i) && i < j && Finishes(run, j))
    decreases |run|
  {
    if run != [] {
      var next := PatchedPhase(phase, run[0].operation, run[0].size);
      var rest := run[1..];
      PhaseOverRuns(next, rest);
      assert forall j :: Finishes(rest, j) ==> Finishes(run, j + 1);
      assert forall j :: Starts(rest, j) ==> Starts(run, j + 1);
      assert forall j :: Finishes(run, j) && j > 0 ==> Finishes(rest, j - 1);
      assert forall j :: Starts(run, j) && j > 0 ==> Starts(rest, j - 1);
      assert phase == "skeleton" ==> (next == "filling" <==> Starts(run, 0));
      assert phase == "filling" ==> (next == "completed" <==> Finishes(run, 0));
      if phase == "skeleton" && next == "skeleton" && exists i, j :: Starts(run, i) && i < j && Finishes(run, j) {
        var i, j :| Starts(run, i) && i < j && Finishes(run, j);
        assert Starts(rest, i - 1) && Finishes(rest, j - 1);
      }
    }
  }

  predicate Starts(run: seq<Patch>, i: int) {
    0 <= i < |run| && run[i].operation in {"append", "section_replace", "replace_section"}
  }

  predicate Finishes(run: seq<Patch>, j: int) {
    0 <= j < |run| && run[j].operation == "replace" && run[j].size > 2000
  }
}
