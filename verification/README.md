# Workflow hooks: queue reading, edit gating and stop decisions

This project models the decision logic of the superagents workflow hook
script (`superagents/hooks/hooks.ts`). The host agent runtime calls the
script on lifecycle events, and the script answers with a decision:

- **Queue reading** (`getItemsInSection`, `getNextQueuedItem`). The queue
  document `.agents/work/queued.md` is markdown. Two regular expressions
  pull the first bold slug (`- **slug**`) out of its `## In Progress` or
  `## Up Next` section. An "In Progress" item beats an "Up Next" item.
- **Edit gating** (`preToolUse`). `Edit` and `Write` calls are checked
  against the phase stored in `.agents/workflow.json`. In the RED phase
  only test files may be edited. In the GREEN phase test files are frozen.
- **Stop** (`stop`). The agent may stop only when the queue yields no item.
  Otherwise the stop is blocked, and the reason names the item.
- **`sessionStart`** always approves with a fixed text.
  **`subagentStop`** always returns the empty response.

The two regular expressions are modelled exactly. Each is a ghost
predicate describing the match a backtracking engine reports: the leftmost
start, a greedy `\s*`, a lazy body, and `^` under the `m` flag. Each is
also an executable search, and the search is proved to compute that
match. This covers the engine's surprises:

- The heading is not anchored to a line start, so `### In Progress` is
  taken as the heading (`Section.HeadingNotLineAnchored`).
- An empty section does not end at the next heading. The heading's own
  newline, and any blank lines the greedy `\s*` swallows with it, are
  consumed before the body starts, so the `\n## ` that would close the
  section lies before the body. The body begins at the next non-blank line,
  even when that line is another `## ` heading (`Section.EmptySectionRunsOn`).
  An empty `## In Progress` directly above `## Up Next` therefore reports the
  first "Up Next" item as in progress (`Queue.EmptyInProgressClaimsUpNextItem`).
- A body ends only at `\n## ` or at the very end of the text.
- The slug is cut at the first `*`, may span lines, and is trimmed.
- A slug that trims to `""` is falsy in JavaScript. The caller treats it as
  no item (`Queue.BlankInProgressFallsThrough`).

Files: `wrappers.dfy` (Option), `text.dfy` (JavaScript `\s`,
`includes`, `trim`), `section.dfy` (`getItemsInSection`), `queue.dfy`
(`getNextQueuedItem`), `hooks.dfy` (the four handlers).

The handlers' file reads become parameters:

- The queue file is an `Option<string>`. `None` means the file is missing
  or unreadable.
- The workflow file is an `Option<WorkflowState>`. `None` means the file
  is missing or is not valid JSON.

The script does not validate `currentPhase`. A falsy value (absent, `null`,
`""`) is modelled as `None`. Any truthy value other than the four listed
phases is modelled as `Unlisted`; for example, `architecture`.

Three behaviours of the script are easy to misread:

- A blocked stop names one slug and no phase.
- Only the first bold slug of a section is read, not every bulleted line.
- Any path that merely contains `.agents/` or `.agents\` is exempt from
  gating, wherever that text occurs in the path.

## Model

| member | source | states |
|---|---|---|
| Text.IsSpace | superagents/hooks/hooks.ts:41-47 | the code points of JavaScript's `\s`, which are also the characters `trim` strips |
| Text.SpaceTable | superagents/hooks/hooks.ts:41-47 | the `\s` table is exactly the ECMAScript WhiteSpace characters (TAB, VT, FF, ZWNBSP, the Zs category) together with the LineTerminator characters |
| Text.IsLineTerminator | superagents/hooks/hooks.ts:46 | `^` under the `m` flag matches after LF, CR, LS and PS |
| Text.Contains | superagents/hooks/hooks.ts:113-115 | `includes` is true exactly when the pattern occurs somewhere in the text |
| Text.Trim | superagents/hooks/hooks.ts:47 | `trim` returns a slice of its input with only whitespace removed on either side, and neither end of the result is whitespace |
| Section.IsSectionMatch | superagents/hooks/hooks.ts:41-43 | the match of the heading pattern that a backtracking engine reports: the leftmost heading text, the longest whitespace run that still ends in a newline, and the shortest body ending at `\n## ` or the end of the text |
| Section.ItemLineAt | superagents/hooks/hooks.ts:46 | `^- \*\*([^*]+)\*\*` with the `m` flag matches at a line start, with the capture between `- **` and the next `**` and free of `*` |
| Section.HeadingLineEnd | superagents/hooks/hooks.ts:41 | `\s*\n` after the heading text matches exactly when a newline follows within the whitespace run, and the greedy match ends after the last such newline |
| Section.FindHeadingFrom | superagents/hooks/hooks.ts:41-43 | the reported heading is the leftmost position where `## <name>\s*\n` matches; no match means there is none anywhere at or after the start |
| Section.BodyEnd | superagents/hooks/hooks.ts:41 | the lazy body stops at the first `\n## ` or at the end of the text, and at no earlier position |
| Section.FindSection | superagents/hooks/hooks.ts:41-43 | the section match is the leftmost heading with the longest `\s*` and the shortest body, or there is no heading line at all |
| Section.ItemAt | superagents/hooks/hooks.ts:46 | the item pattern matches at a position exactly when it is a line start followed by `- **`, a non-empty run without `*`, and `**` |
| Section.FindItemFrom | superagents/hooks/hooks.ts:46 | the item match is the leftmost line matching the item pattern, or there is none |
| Section.FindSectionIsReported | superagents/hooks/hooks.ts:41-43 | the heading search returns exactly the section match the engine reports, or none when there is no match |
| Section.FindItemIsReported | superagents/hooks/hooks.ts:46 | the item search returns exactly the leftmost item match the engine reports, or none when there is no match |
| Section.SectionMatchUnique | superagents/hooks/hooks.ts:41 | the engine's choice of heading, body start and body end is unique |
| Section.GetItemsInSection | superagents/hooks/hooks.ts:40-48 | the result is the trimmed capture of the first item match in the body of the section match, as the regex semantics define them; a returned slug contains no `*` and no whitespace at either end; without a heading line the result is none |
| Section.SlugFromSectionBody | superagents/hooks/hooks.ts:41-47 | a returned slug is the trimmed bold text of the first item line lying between the heading and the end of its body |
| Section.SectionWithoutItemIsNone | superagents/hooks/hooks.ts:45-47 | a heading whose body has no item line yields none |
| Section.NoNewlineNoSection | superagents/hooks/hooks.ts:41-43 | a text without a newline has no section, as the heading must be followed by a newline |
| Section.HeadingNotLineAnchored | superagents/hooks/hooks.ts:41 | `### <name>` followed by a newline is taken as the heading, one character in |
| Section.EmptySectionRunsOn | superagents/hooks/hooks.ts:41 | after `<heading><whitespace>\n` the body starts at the next non-blank line, even when that line is another `## ` heading, and is not empty |
| Section.RunOnTakesNextItem | superagents/hooks/hooks.ts:41-47 | for an empty section directly followed by a one-line heading and an item line, the item's slug is returned as the empty section's own |
| Queue.NextQueuedItem | superagents/hooks/hooks.ts:51-76 | no queue file gives none; an In Progress slug wins as `in_progress`, otherwise an Up Next slug is `pending`, otherwise none; a reported slug is non-empty |
| Queue.IsTruthy | superagents/hooks/hooks.ts:60-69 | a slug is truthy unless it is `null` or `""` |
| Queue.InProgressTakesPriority | superagents/hooks/hooks.ts:59-63 | an In Progress slug decides the result whatever the Up Next section holds |
| Queue.PendingOnlyWithoutInProgress | superagents/hooks/hooks.ts:59-69 | the item is `pending` exactly when In Progress yields nothing and Up Next yields a slug |
| Queue.NoItemIffNoSlug | superagents/hooks/hooks.ts:54-71 | there is no item exactly when the file is missing or neither section yields a slug |
| Queue.BlankInProgressFallsThrough | superagents/hooks/hooks.ts:60-69 | an In Progress slug that trims to the empty string is skipped and the Up Next item is reported |
| Queue.EmptyInProgressClaimsUpNextItem | superagents/hooks/hooks.ts:41-62 | with an empty `## In Progress` directly above `## Up Next` and its item, that item is reported as `in_progress` |
| Hooks.IsEditTool | superagents/hooks/hooks.ts:94 | only `Edit` and `Write` calls are gated |
| Hooks.PathOf | superagents/hooks/hooks.ts:98-99 | an absent `file_path` reads as `""` |
| Hooks.ActivePhase | superagents/hooks/hooks.ts:107-109 | the phase is absent when the workflow file is missing, unparsable or has a falsy `currentPhase` |
| Hooks.IsWorkflowPath | superagents/hooks/hooks.ts:102 | a path is exempt exactly when `.agents/` or `.agents\` occurs in it |
| Hooks.IsTestPath | superagents/hooks/hooks.ts:113-115 | a path is a test file exactly when `.test.`, `.spec.` or `__tests__` occurs in it |
| Hooks.RedReason | superagents/hooks/hooks.ts:121 | the RED-phase reason mentions the path |
| Hooks.PreToolUse | superagents/hooks/hooks.ts:90-134 | tools other than Edit and Write, exempt paths and an absent phase are allowed; an edit is blocked exactly when RED meets a non-test path or GREEN meets a test path; a RED block gives the RED reason for the path, with a missing path read as `""`, and a GREEN block gives the fixed GREEN reason |
| Hooks.UngatedPhasesAllow | superagents/hooks/hooks.ts:117-133 | research, refactor and any other phase never block |
| Hooks.PhaseRulesAllow | superagents/hooks/hooks.ts:117-131 | RED never blocks a test file and GREEN never blocks a non-test file |
| Hooks.GatingDependsOnlyOnPhase | superagents/hooks/hooks.ts:106-111 | of the workflow file only the phase affects the decision |
| Hooks.RedExamples | superagents/hooks/hooks.ts:113-123 | in RED, `src/app.ts` and a missing path are blocked with a reason naming the path, and `src/app.test.ts` is allowed |
| Hooks.GreenExamples | superagents/hooks/hooks.ts:113-133 | in GREEN, `src/app.test.ts` is blocked and `src/app.ts` is allowed |
| Hooks.WorkflowFileExample | superagents/hooks/hooks.ts:101-104 | `.agents/workflow.json` may be edited by any tool in any phase |
| Hooks.StopReason | superagents/hooks/hooks.ts:147-157 | the block reason names the slug, and its opening tells an in-progress item from a pending one |
| Hooks.Stop | superagents/hooks/hooks.ts:137-158 | stopping is allowed exactly when the queue yields no item; otherwise it is blocked with a reason naming the slug |
| Hooks.StopWithoutQueueAllows | superagents/hooks/hooks.ts:141-145 | a missing queue file allows the stop |
| Hooks.StopBlocksOnInProgress | superagents/hooks/hooks.ts:147-152 | an In Progress slug always blocks the stop, with an in-progress reason naming it |
| Hooks.SessionStart | superagents/hooks/hooks.ts:79-87 | the session start always approves, for the `SessionStart` event, with the fixed command summary |
| Hooks.SubagentStop | superagents/hooks/hooks.ts:162-166 | a subagent's stop is never blocked |

## Left out

- `readWorkflowState` (file existence check, read, `JSON.parse`, logging) is a parameter of `PreToolUse`. A parse failure is `None`.
- The file reads of `getNextQueuedItem` and the `process.cwd()` lookup are the `Option<string>` parameter of `NextQueuedItem` and `Stop`.
- `runHook`, `log` and the payload and response types of `./lib` are not part of this model. The handlers are modelled as synchronous pure functions rather than async ones.
- Section.GetItemsInSection: takes the section name literally. The script splices it into the pattern unescaped, which matters only for names with pattern metacharacters; the two names it uses have none.
- Strings are sequences of Unicode scalar values rather than UTF-16 code units. The patterns and `trim` only inspect characters of the Basic Multilingual Plane, so the results are the same.
- A truthy `file_path` that is not a string is outside the model: a number or a plain object makes `includes` throw, and an array is searched element by element. A falsy value (`0`, `false`, `null`, `""`) reads as `""`, the same as an absent path, which is `PathOf(None)`.
- Hooks.SessionStart: the welcome text is a constant, not analysed further.
- Commit-message phase transitions, archive lookup, the legacy checkbox queue, queue syncing into the workflow file, work-item completion, and the prompt-submit and post-tool-use handlers do not appear in this script and are not modelled.
