/** The four lifecycle handlers of superagents/hooks/hooks.ts as pure
    functions. The reads of `.agents/workflow.json` and of the queue
    document become parameters; the responses are the JSON objects the
    host runtime receives. */
module Hooks {
  import opened Wrappers
  import opened Text
  import opened Queue

  /** A handler's response */
  datatype HookResponse =
    | Empty                                                   // `{}`: no objection
    | Block(reason: string)                                   // `{ decision: 'block', reason }`
    | Approve(hookEventName: string, additionalContext: string) // `{ decision: 'approve', hookSpecificOutput }`

  /** A truthy `currentPhase` of the workflow file. The file is parsed
      without validation, so any other truthy value (a phase name such as
      `architecture`, a number) is `Unlisted`. */
  datatype Phase = Research | Red | Green | Refactor | Unlisted

  /** `.agents/workflow.json`; a falsy or absent `currentPhase` is `None` */
  datatype WorkflowState = WorkflowState(version: Option<string>, currentPhase: Option<Phase>)

  /** `workflow?.currentPhase`, for a file that may be missing or unparsable */
  function ActivePhase(workflow: Option<WorkflowState>): Option<Phase> {
    match workflow
    case None => None
    case Some(w) => w.currentPhase
  }

  /** Only these tools are gated */
  predicate IsEditTool(toolName: string) {
    toolName == "Edit" || toolName == "Write"
  }

  /** Files of the workflow itself, under `.agents` with either separator */
  function IsWorkflowPath(path: string): (r: bool)
    ensures r <==> Occurs(path, ".agents/") || Occurs(path, ".agents\\")
  {
    Contains(path, ".agents/") || Contains(path, ".agents\\")
  }

  /** The test-file heuristic */
  function IsTestPath(path: string): (r: bool)
    ensures r <==> Occurs(path, ".test.") || Occurs(path, ".spec.") || Occurs(path, "__tests__")
  {
    Contains(path, ".test.") || Contains(path, ".spec.") || Contains(path, "__tests__")
  }

  /** `input?.file_path || ''` */
  function PathOf(filePath: Option<string>): string {
    filePath.GetOr("")
  }

  const RedPrefix: string := "RED phase: only test files can be edited. Current file: "
  const RedSuffix: string := ". Edit a .test.ts file instead."

  function RedReason(path: string): (r: string)
    ensures Occurs(r, path)
  {
    OccursInConcat(RedPrefix, path, RedSuffix);
    RedPrefix + path + RedSuffix
  }

  const GreenReason: string :=
    "GREEN phase: test files cannot be modified. Tests define the spec. Fix implementation code instead."

  /** The edit-gating rule: RED allows only test files, GREEN forbids them */
  predicate IsBlockedEdit(phase: Option<Phase>, path: string) {
    (phase == Some(Red) && !IsTestPath(path)) || (phase == Some(Green) && IsTestPath(path))
  }

  /** `preToolUse`: gate an edit by the current workflow phase */
  function PreToolUse(toolName: string, filePath: Option<string>, workflow: Option<WorkflowState>): (r: HookResponse)
    ensures r.Empty? || r.Block?
    ensures !IsEditTool(toolName) ==> r == Empty
    ensures IsWorkflowPath(PathOf(filePath)) ==> r == Empty
    ensures ActivePhase(workflow).None? ==> r == Empty
    ensures r.Block? <==>
      IsEditTool(toolName) && !IsWorkflowPath(PathOf(filePath)) && IsBlockedEdit(ActivePhase(workflow), PathOf(filePath))
    ensures r.Block? && ActivePhase(workflow) == Some(Red) ==> r.reason == RedReason(PathOf(filePath))
    ensures r.Block? && ActivePhase(workflow) == Some(Green) ==> r.reason == GreenReason
  {
    if !IsEditTool(toolName) then Empty
    else
      var path := PathOf(filePath);
      if IsWorkflowPath(path) then Empty
      else
        match ActivePhase(workflow)
        case None => Empty
        case Some(phase) =>
          var isTest := IsTestPath(path);
          if phase == Red && !isTest then Block(RedReason(path))
          else if phase == Green && isTest then Block(GreenReason)
          else Empty
  }

  /** Phases without a rule never block */
  lemma UngatedPhasesAllow(toolName: string, filePath: Option<string>, workflow: Option<WorkflowState>)
    requires ActivePhase(workflow) in {Some(Research), Some(Refactor), Some(Unlisted)}
    ensures PreToolUse(toolName, filePath, workflow) == Empty
  {
  }

  /** RED never blocks a test file, GREEN never blocks any other file */
  lemma PhaseRulesAllow(toolName: string, filePath: Option<string>, workflow: Option<WorkflowState>)
    ensures ActivePhase(workflow) == Some(Red) && IsTestPath(PathOf(filePath)) ==> PreToolUse(toolName, filePath, workflow) == Empty
    ensures ActivePhase(workflow) == Some(Green) && !IsTestPath(PathOf(filePath)) ==> PreToolUse(toolName, filePath, workflow) == Empty
  {
  }

  /** The decision reads nothing of the workflow file but its phase */
  lemma GatingDependsOnlyOnPhase(toolName: string, filePath: Option<string>, w1: Option<WorkflowState>, w2: Option<WorkflowState>)
    requires ActivePhase(w1) == ActivePhase(w2)
    ensures PreToolUse(toolName, filePath, w1) == PreToolUse(toolName, filePath, w2)
  {
  }

  /** `src/app.ts` is an ordinary source file */
  lemma SourcePathFacts()
    ensures !IsTestPath("src/app.ts") && !IsWorkflowPath("src/app.ts")
  {
    var p := "src/app.ts";
    AbsentCharNoOccurrence(p, ".test.", 2);
    AbsentCharNoOccurrence(p, ".spec.", 3);
    AbsentCharNoOccurrence(p, "__tests__", 0);
    AbsentCharNoOccurrence(p, ".agents/", 2);
    AbsentCharNoOccurrence(p, ".agents\\", 2);
  }

  /** `src/app.test.ts` is a test file */
  lemma TestPathFacts()
    ensures IsTestPath("src/app.test.ts") && !IsWorkflowPath("src/app.test.ts")
  {
    var t := "src/app.test.ts";
    assert MatchesAt(t, 7, ".test.");
    AbsentCharNoOccurrence(t, ".agents/", 2);
    AbsentCharNoOccurrence(t, ".agents\\", 2);
  }

  /** The empty path, read for a missing `file_path`, is an ordinary file */
  lemma EmptyPathFacts()
    ensures !IsTestPath("") && !IsWorkflowPath("")
  {
  }

  /** RED-phase cases: a source file and a missing path are blocked, a
      test file is not */
  lemma RedExamples()
    ensures var red := Some(WorkflowState(None, Some(Red)));
      && PreToolUse("Edit", Some("src/app.ts"), red) == Block(RedReason("src/app.ts"))
      && PreToolUse("Write", None, red) == Block(RedReason(""))
      && PreToolUse("Edit", Some("src/app.test.ts"), red) == Empty
  {
    var red := Some(WorkflowState(None, Some(Red)));
    SourcePathFacts();
    assert PreToolUse("Edit", Some("src/app.ts"), red) == Block(RedReason("src/app.ts"));
    EmptyPathFacts();
    assert PreToolUse("Write", None, red) == Block(RedReason(""));
    TestPathFacts();
  }

  /** GREEN-phase cases: a test file is blocked, a source file is not */
  lemma GreenExamples()
    ensures var green := Some(WorkflowState(None, Some(Green)));
      && PreToolUse("Write", Some("src/app.test.ts"), green) == Block(GreenReason)
      && PreToolUse("Edit", Some("src/app.ts"), green) == Empty
  {
    SourcePathFacts();
    TestPathFacts();
  }

  /** The workflow file itself may be edited in any phase */
  lemma WorkflowFileExample(toolName: string, w: Option<WorkflowState>)
    ensures PreToolUse(toolName, Some(".agents/workflow.json"), w) == Empty
  {
    assert MatchesAt(".agents/workflow.json", 0, ".agents/");
  }

  const InProgressPrefix: string := "Work item \""
  const InProgressSuffix: string :=
    "\" is still in progress. Continue the workflow phases (RED \U{2192} GREEN \U{2192} REFACTOR \U{2192} archive). Read .agents/context/work.md if needed."
  const PendingPrefix: string := "Queue has pending items. Next: \""
  const PendingSuffix: string := "\". Read .agents/context/work.md and continue. Do not ask the user."

  /** The reason a stop is blocked: it names the item and says whether it
      is under way or merely queued */
  function StopReason(item: QueueItem): (reason: string)
    ensures Occurs(reason, item.slug)
    ensures item.status == InProgress <==> StartsWith(reason, InProgressPrefix)
    ensures item.status == Pending <==> StartsWith(reason, PendingPrefix)
  {
    assert InProgressPrefix[0] == 'W' && PendingPrefix[0] == 'Q';
    if item.status == InProgress then
      Framed(InProgressPrefix, item.slug, InProgressSuffix);
      var reason := InProgressPrefix + item.slug + InProgressSuffix;
      assert reason[0] == 'W';
      StartsWithHead(reason, PendingPrefix);
      reason
    else
      Framed(PendingPrefix, item.slug, PendingSuffix);
      var reason := PendingPrefix + item.slug + PendingSuffix;
      assert reason[0] == 'Q';
      StartsWithHead(reason, InProgressPrefix);
      assert StartsWith(reason, PendingPrefix);
      assert item.status == Pending;
      reason
  }

  /** `stop`: the session may end only when the queue has nothing left */
  function Stop(queue: Option<string>): (r: HookResponse)
    ensures r.Empty? || r.Block?
    ensures r.Empty? <==> NextQueuedItem(queue).None?
    ensures r.Block? ==> r.reason == StopReason(NextQueuedItem(queue).value)
    ensures r.Block? ==> Occurs(r.reason, NextQueuedItem(queue).value.slug)
  {
    match NextQueuedItem(queue)
    case None => Empty
    case Some(item) => Block(StopReason(item))
  }

  const SessionStartText: string :=
    "Superagents RPI workflow active. Commands: /superagents:work, /superagents:backlog, /superagents:queue-add, /superagents:queue-status, /superagents:update-roadmap, /superagents:project-status, /superagents:fix-tests, /superagents:janitor"

  /** `sessionStart`: always approves, announcing the workflow commands */
  function SessionStart(): (r: HookResponse)
    ensures r.Approve? && r.hookEventName == "SessionStart"
    ensures r.additionalContext == SessionStartText
  {
    Approve("SessionStart", SessionStartText)
  }

  /** `subagentStop`: a subagent is never kept from stopping */
  function SubagentStop(): (r: HookResponse)
    ensures r == Empty
  {
    Empty
  }

  /** Stop is allowed without a queue file */
  lemma StopWithoutQueueAllows()
    ensures Stop(None) == Empty
  {
  }

  /** An in-progress item always keeps the session going, whatever else the
      queue holds, and the reason names it */
  lemma StopBlocksOnInProgress(content: string, slug: string)
    requires YieldedSlug(content, InProgressSection) == Some(slug)
    ensures Stop(Some(content)).Block?
    ensures Occurs(Stop(Some(content)).reason, slug)
    ensures StartsWith(Stop(Some(content)).reason, InProgressPrefix)
  {
  }
}
