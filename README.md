# 4815-tools: a verified model of the extension's core

4815-tools is a VS Code extension for a robotics team. It creates, backs up
and builds competition projects kept in git repositories on a Bitbucket
server. This project models the four parts of it that hold real decision
logic, and proves what they promise.

- **The multi-step input runner** (`multistepinput.dfy`, module `MultiStep`;
  `src/ui/multiStepInput.ts`). It is the wizard engine behind "Create
  Project", a navigation state machine over a history stack of steps.
  - `MultiStepInput.StepThrough` is the `while` loop that pushes and pops the
    history. It is proved equal to the reference semantics `RunFrom`, which
    is built from the one-iteration function `StepOnce`.
  - What a step's body does is a script entry. An entry names the surface
    the body shows and how it ends: `Next`, `Done`, `Back`, `Resume`,
    `Cancel` or `Fail`. The source's thrown sentinels become those ends.
  - What the host sees (a surface disabled, disposed or shown with or
    without a Back button) is an event log. The lemmas prove from that log
    that at most one surface is ever live.
  - The picker's events go through `PickSettlement`: the first event that
    settles the promise wins.
  - The input box is a class, `InputBox`, driven by host events. Its
    validation race keeps only the result of the latest change-triggered
    validation.
- **The progress reporter** (`progress.dfy`, module `ProgressReporter`;
  `src/ui/progress.ts`). It is a class with the four-state lifecycle
  `constructed → initializing → running → resolved`. It keeps:
  - a stored percentage, reported to the host as increments;
  - one pending "next report" callback;
  - the cancellation that `set` and `assertContinue` turn into
    `ProgressCanceled`;
  - a teardown that may run any number of times but releases the host once.

  The host is modelled as fields of the reporter: a report log, a release
  counter and the cancellation token's flag. The invariant `Valid` ties
  them together and every method keeps it.
- **The pure helpers** (`utils.dfy`, module `Utils`; `src/utils.ts`):
  - the Bitbucket repository-slug normaliser, as its regular-expression
    chain (one function per `replace`);
  - the template-name prefix;
  - the competition-season string;
  - `isDescendant` and `pathEquals`, over a platform given by its separator
    and whether it folds case;
  - `timeSince`, bucketed on whole seconds.
- **The command layer's decisions** (`extension.dfy`, module `Commands`;
  `src/extension.ts`):
  - the repository picker's move-to-front reordering, an imperative method
    over a local sequence;
  - the one-command-at-a-time gate, a class holding the module-level
    `extensionConfig` as a flag;
  - the ordered validation chain for a new project's name, with the prompt
    it leaves behind;
  - the mapping from the options picker to the two creation flags;
  - the filters that choose which unsaved documents a backup saves and adds
    back to the index.

`wrappers.dfy` holds the `Option` type.

Several behaviours of the source are modelled as written:
- A slug may end in `-` when the 62-character cut falls just after a dash
  (`Utils.TruncationCanEndInDash`).
- The command gate is released as soon as the callback returns its promise.
  A command started from inside a callback is always rejected. A command
  started after the callback has returned always runs, even while the first
  command's promise is still pending.
- The input box's initial `validate("")` result is never displayed.
- `assertContinue` and `isCanceled` read the host's token. The token does
  not exist before the host has started the progress task, so both require
  it (`tokenAvailable`).
- Before May of a year ending in `00`, the season string is `"-10"` (`Utils.SeasonAtCenturyStart`). Years are not
  zero-padded, so 2005 gives `"56"` (`Utils.SeasonWithoutPadding`).
- The validator's `> 62` test on the slug can never fail, because the slug
  is cut to 62 characters (`Commands.SlugNeverTooLong`).
- `isDescendant` compares a path with itself exactly and folds case only in
  the prefix test. So on a case-insensitive platform `/A` and `/a` are
  equal paths, yet neither is a descendant of the other
  (`Utils.EqualPathsNeedNotBeDescendants`).
- The season's second number is not taken mod 100, so September 2099 gives
  `"99100"` (`Utils.SeasonAtCenturyEnd`).

## Model

| member | source | states |
|---|---|---|
| Utils.ToLower | src/utils.ts:127 | each character is lower-cased on its own (ASCII), and the length is kept |
| Utils.ReplaceDisallowed | src/utils.ts:122 | every character outside `a-zA-Z0-9-` becomes `-`, the rest are kept, and the length is kept |
| Utils.SplitCamel | src/utils.ts:123 | the result has no lower-case letter directly before an upper-case one, starts with the input's first character, and keeps the allowed characters allowed (where each dash goes is the partner lemma `Utils.SplitCamelAppend`) |
| Utils.SplitCamelInsertsOnlyDashes | src/utils.ts:123 | with all dashes removed, the split's output equals its input: no letter or digit is changed, dropped or moved |
| Utils.SplitCamelAppend | src/utils.ts:123 | the split of a joined text is the split of each piece with one dash between them exactly when a lower-case letter meets an upper-case one at the join; a text of fewer than two characters is unchanged, so every character is kept, in order, and a dash goes at each camel boundary and nowhere else |
| Utils.CollapseDashes | src/utils.ts:124 | no two adjacent dashes remain, the first character is kept, and allowed characters stay allowed |
| Utils.CollapseDropsRepeatedDashes | src/utils.ts:124 | collapsing dashes drops exactly each dash that another dash follows, so one dash of every run is kept and every other character stays in place |
| Utils.CollapseKeepsNonDashes | src/utils.ts:124 | with dashes removed, the collapsed text equals the input |
| Utils.TrimLeadingDashes | src/utils.ts:125 | the result is a suffix of the input that does not start with `-`, and everything dropped is a dash |
| Utils.TrimTrailingDashes | src/utils.ts:126 | the result is a prefix of the input that does not end with `-`, and everything dropped is a dash |
| Utils.TrimLeadingKeepsNonDashes | src/utils.ts:125 | with dashes removed, the text trimmed at the front equals the input |
| Utils.TrimTrailingKeepsNonDashes | src/utils.ts:126 | with dashes removed, the text trimmed at the end equals the input |
| Utils.ToLowerKeepsNonDashes | src/utils.ts:127 | lower-casing commutes with removing dashes |
| Utils.ReplaceKeepsAlphanumerics | src/utils.ts:122 | with dashes removed, the first stage's output is the input's ASCII letters and digits, in order |
| Utils.SlugKeepsAlphanumerics | src/utils.ts:121-127 | with dashes removed, the slug before the cut is exactly the name's ASCII letters and digits, in order and lower-cased |
| Utils.CutSlugKeepsAlphanumerics | src/utils.ts:111-129 | with dashes removed, the slug is a prefix of the name's lower-cased letters and digits, and equals them when nothing was cut |
| Utils.SlugKeepsCleanPrefix | src/utils.ts:111-129 | a clean slug of at most 62 characters, followed by `-` and any name, normalises to a slug that starts with it |
| Utils.ProjectSlugFromName | src/utils.ts:111-129 | a slug holds only `a-z`, `0-9` and `-`, has at most 62 characters, never contains `--` and never starts with `-` |
| Utils.CutSlug | src/utils.ts:128 | the 62-character cut keeps the slug properties and is a prefix of the uncut slug: the first 62 characters when it is longer, the whole slug otherwise; it can end in `-` only when it cut something |
| Utils.UntruncatedSlugIsClean | src/utils.ts:121-127 | before the cut, a slug has only slug characters, no `--`, and no `-` at either end |
| Utils.CleanSlugIsFixedPoint | src/utils.ts:121-127 | the whole chain before the cut leaves a clean slug unchanged |
| Utils.SlugIdempotent | src/utils.ts:111-129 | normalising a slug that does not end in `-` gives the same slug |
| Utils.TruncationCanEndInDash | src/utils.ts:118-128 | the name of 61 `a`s, then `-b`, has the slug of 61 `a`s and a `-`, so a slug can end in `-` despite the rule in the source's comment |
| Utils.CamelCaseBecomesKebabCase | src/utils.ts:123-127 | a lower-case word, an upper-case letter and more lower-case letters (`fooBar`) become the two parts in lower case joined by one dash (`foo-bar`) |
| Utils.SeparatorBecomesOneDash | src/utils.ts:113-128 | any non-empty run of characters that are not letters or digits between two clean slug words becomes exactly one dash |
| Utils.PunctuationBecomesOneDash | src/utils.ts:113-128 | `foo & bar` gives `foo-bar` |
| Utils.TemplateNamePrefix | src/utils.ts:98-101 | the result is a dash-free prefix of the template name that is either the whole name or is followed by `-` in it |
| Utils.TemplateNamePrefixExample | src/utils.ts:99 | `v5-4815lib` gives `v5` |
| Utils.NatToString | src/utils.ts:91 | the decimal form of a natural number is all digits, has no leading zero, is one character exactly below 10, and ends with the number mod 10 |
| Utils.IntToString | src/utils.ts:91 | the decimal form of an integer is `-` exactly for a negative number, followed by the canonical digits of its magnitude (no leading zero unless it is 0), which parse back to the magnitude |
| Utils.ParseDigits | src/utils.ts:92 | a string of n digits parses to a number below 10 to the n |
| Utils.LastTwo | src/utils.ts:91 | the result is the input's last two characters, or the whole input when it is shorter |
| Utils.TwoDigitYear | src/utils.ts:91-92 | parsing the last two characters of the year's decimal form gives the year mod 100 |
| Utils.ParseNatToString | src/utils.ts:91-92 | parsing the decimal form of a natural number gives the number back |
| Utils.CanonicalDecimalRoundTrip | src/utils.ts:91-92 | every canonical digit string is the printed form of the number it parses to, so the printed form of a number is unique |
| Utils.TwoDigitYearIsRemainder | src/utils.ts:91-92 | parsing the last two characters of the year's decimal form gives the year mod 100 |
| Utils.CompetitionSeasonYears | src/utils.ts:87-96 | the second number is the first plus one; from May on the first is the year mod 100, before May the second is |
| Utils.SeasonInAutumn | src/utils.ts:94 | September 2024 gives `2425` |
| Utils.SeasonInSpring | src/utils.ts:95 | March 2024 gives `2324` |
| Utils.SeasonAtCenturyStart | src/utils.ts:95 | January 2000 gives `-10` |
| Utils.SeasonWithoutPadding | src/utils.ts:91-94 | June 2005 gives `56`: the two-digit years are not zero-padded |
| Utils.CompetitionSeasonString | src/utils.ts:87-96 | the season string is the decimal forms of the two season years side by side, with no separator or padding; it is 2 to 5 characters long, all digits after its first character, and starts with `-` exactly before May of a year ending in `00` |
| Utils.SeasonAtCenturyEnd | src/utils.ts:94 | September 2099 gives `99100`: the second number is not taken mod 100 |
| Utils.NormalizePath | src/utils.ts:131-139 | on a case-insensitive platform each character is lower-cased; on any other platform the path is unchanged; the length is kept |
| Utils.WithTrailingSeparator | src/utils.ts:146-148 | the result ends with the separator; it is the parent itself when that already ends with one, and otherwise the parent with one separator appended |
| Utils.ChildIsDescendant | src/utils.ts:141-151 | the parent, a separator and anything else form a descendant of the parent |
| Utils.DescendantContinuesWithSeparator | src/utils.ts:141-151 | a proper descendant of a parent without a trailing separator is longer, and its normalised form starts with the parent and a separator |
| Utils.SiblingWithSharedPrefix | src/utils.ts:146-150 | `/a/bc` is not a descendant of `/a/b` on a case-sensitive platform |
| Utils.SiblingWithSharedPrefixIgnoringCase | src/utils.ts:146-150 | nor on a case-insensitive one |
| Utils.ChildPathIsDescendant | src/utils.ts:141-151 | `/a/b/c` is a descendant of `/a/b` |
| Utils.IsDescendant | src/utils.ts:141-151 | a path is a descendant of itself, and a descendant is never shorter than its parent |
| Utils.PathEquals | src/utils.ts:153-155 | equal strings are equal paths, equal paths have the same length, and on a case-sensitive platform paths are equal exactly when the strings are |
| Utils.PathEqualsIsEquivalence | src/utils.ts:153-155 | `pathEquals` is reflexive, symmetric and transitive |
| Utils.EqualPathsNeedNotBeDescendants | src/utils.ts:141-155 | ignoring case, `/A` equals `/a`, yet neither is a descendant of the other |
| Utils.TimeSince | src/utils.ts:60-85 | the unit is the first of years, months, days, hours and minutes whose threshold the whole seconds strictly exceed, else seconds; the count is the seconds divided by the unit, and at least 1 for a unit other than seconds |
| Utils.TimeSinceCountBounds | src/utils.ts:63-84 | below a unit's threshold the count stays within the next larger unit (at most 12 months, 30 days, 24 hours, 60 minutes or 60 seconds) |
| Utils.TimeSinceAtThreshold | src/utils.ts:80-84 | exactly 60 s is `60 seconds` and 61 s is `1 minutes`; 86400 s is `24 hours` |
| ProgressReporter.TotalIncrementAppend | src/ui/progress.ts:62-64 | one more report adds its increment to the total |
| ProgressReporter.Progress.constructor | src/ui/progress.ts:14-24 | a new reporter is `constructed`, at 0 %, with no callback, no token and nothing reported or released |
| ProgressReporter.Progress.Init | src/ui/progress.ts:26-31 | only a `constructed` reporter moves on, to `initializing`; any later call throws and changes nothing |
| ProgressReporter.Progress.OnTaskStarted | src/ui/progress.ts:40-45 | when the host starts the task, the token is handed over and the state becomes `running` |
| ProgressReporter.Progress.OnCancellationRequested | src/ui/progress.ts:46-49 | the cancellation observer invokes the pending callback, if any, and clears it |
| ProgressReporter.Progress.AssertContinue | src/ui/progress.ts:78-83 | it fails with `ProgressCanceled` exactly when cancellation was requested or the state is not `running`, and each failure shows one notification |
| ProgressReporter.Progress.Set | src/ui/progress.ts:58-67 | no effect outside `running`; after cancellation it throws before any callback or report; otherwise it invokes the old callback, reports the new percent minus the stored one, stores the new percent (or the old one when omitted) and keeps the new callback; the increments always add up to the stored percent |
| ProgressReporter.Progress.Resolve | src/ui/progress.ts:69-76 | from `running` it invokes and clears the callback, releases the host once and enters `resolved`; in any other state it does nothing |
| ProgressReporter.Progress.Dispose | src/ui/progress.ts:93-95 | teardown is `resolve`: from `running` it invokes and clears the callback, releases the host once and enters `resolved`; in any other state it changes nothing, so however often it runs the host is released at most once |
| ProgressReporter.Progress.IsCanceled | src/ui/progress.ts:89-91 | under the reporter's invariant, a cancelled token means no callback is pending and the reporter is running or resolved |
| ProgressReporter.Progress.InvokePending | src/ui/progress.ts:71-72 | the pending callback, if any, is invoked once and cleared |
| ProgressReporter.CancelledRunScenario | src/ui/progress.ts:58-83 | two reports, a cancellation and a refused third report; with teardown run twice the host sees two increments, one notification and one release |
| ProgressReporter.UncancelledRunScenario | src/ui/progress.ts:62-64 | with a report that omits the percentage in between, the increments add up to the last percentage |
| ProgressReporter.InitTwiceScenario | src/ui/progress.ts:26-29 | a second `init` throws and leaves the reporter running |
| MultiStep.StepOnceShape | src/ui/multiStepInput.ts:41-65 | one pass disables the current surface, shows the body's surface (disposing the old one), disposes on stopping, and pushes the step unless it ended with Back or Resume |
| MultiStep.FinishStopsExactly | src/ui/multiStepInput.ts:49-65 | the loop stops exactly on Done, Cancel, an error, or Back on the first step; a stop disposes the current surface and completes unless an error passes through, with that error |
| MultiStep.RunFromStarted | src/ui/multiStepInput.ts:40-66 | a run starts with its first step, runs no more steps than the script has, and is left waiting only when every script entry was used |
| MultiStep.BackRunsPredecessor | src/ui/multiStepInput.ts:51-53 | Back pops the step and its predecessor and runs the predecessor next; pushing it again restores the earlier history |
| MultiStep.BackOnFirstStepEnds | src/ui/multiStepInput.ts:51-53 | Back on the first step ends the loop normally with an empty history |
| MultiStep.ResumeRunsSameStep | src/ui/multiStepInput.ts:54-55 | Resume runs the same step again with the history as it was |
| MultiStep.CancelTerminates | src/ui/multiStepInput.ts:56-57 | Cancel ends the run whatever follows: the step was the last to run and the current surface ends disposed |
| MultiStep.FailurePropagates | src/ui/multiStepInput.ts:58-61 | any other error ends the run with the surface disposed and is passed on unchanged |
| MultiStep.BackButtonOnlyAfterFirstStep | src/ui/multiStepInput.ts:85 | a surface a step shows carries the Back button exactly when an earlier step is on the history |
| MultiStep.HistoryIsPathTaken | src/ui/multiStepInput.ts:41-43 | without Back and Resume the history is exactly the steps that ran |
| MultiStep.AtMostOneSurface | src/ui/multiStepInput.ts:44-47 | at no point of a run are two surfaces live, and none is left undisposed once the run ends |
| MultiStep.StepOnceKeepsOneLive | src/ui/multiStepInput.ts:108-110 | one pass never has two live surfaces and leaves only the current one live, or none when the loop stops |
| MultiStep.ReplaceKeepsOneLive | src/ui/multiStepInput.ts:164-166 | disposing the current surface before showing a new one leaves only the new one live |
| MultiStep.WizardScenario | src/ui/multiStepInput.ts:40-66 | the project wizard with one Back on the template step and a cancel on the name step runs five steps, ends normally and disposes the last surface |
| MultiStep.MultiStepInput.constructor | src/ui/multiStepInput.ts:37-38 | a new runner has an empty history and no surface |
| MultiStep.MultiStepInput.Present | src/ui/multiStepInput.ts:108-110 | presenting disposes the old surface and then shows the new one, which becomes current |
| MultiStep.MultiStepInput.Dispose | src/ui/multiStepInput.ts:68-70 | disposes the current surface, if any |
| MultiStep.MultiStepInput.StepThrough | src/ui/multiStepInput.ts:40-66 | the loop's result, final history, current surface, steps run and host events are those of `RunFrom` |
| MultiStep.MultiStepInput.BeginStep | src/ui/multiStepInput.ts:43-47 | the step is pushed and the current surface disabled before the body shows its surface |
| MultiStep.MultiStepInput.RunStep | src/ui/multiStepInput.ts:41-63 | one pass of the loop does what `StepOnce` describes |
| MultiStep.MultiStepInput.ShowQuickPick | src/ui/multiStepInput.ts:72-120 | the picker becomes the only current surface and settles as its host events say |
| MultiStep.MultiStepInput.ShowInputBox | src/ui/multiStepInput.ts:122-131 | the box becomes the only current surface, with the offered buttons, and its initial `validate("")` is started |
| MultiStep.Run | src/ui/multiStepInput.ts:32-35 | a fresh run is `RunFrom` on an empty history, never has two live surfaces, and leaves none live when it ends |
| MultiStep.OfferedButtons | src/ui/multiStepInput.ts:85 | the offered buttons are the caller's, in order, with the Back button added in front exactly when the history holds more than one step |
| MultiStep.FirstSettlementWins | src/ui/multiStepInput.ts:80-106 | once a picker's promise has settled, later events change nothing |
| MultiStep.PickSettlementIsFirstSettling | src/ui/multiStepInput.ts:80-106 | a picker is still pending exactly when no event settles it; otherwise it settles as the first event that settles it |
| MultiStep.PickSignals | src/ui/multiStepInput.ts:88-99 | a picker signals Back only through an offered Back button and Resume only through a hide whose `shouldResume` yields true; it signals nothing but Back, Resume or Cancel |
| MultiStep.InputBox.constructor | src/ui/multiStepInput.ts:126-131 | a new box holds its initial value, no message, and only the initial validation |
| MultiStep.InputBox.Settle | src/ui/multiStepInput.ts:125 | the promise settles once: the first settlement is kept |
| MultiStep.InputBox.OnChangeValue | src/ui/multiStepInput.ts:150-152 | a change starts a validation and makes it the latest |
| MultiStep.InputBox.OnAccept | src/ui/multiStepInput.ts:140-143 | accepting disables the box, marks it busy and starts validating the value |
| MultiStep.InputBox.OnValidationCompleted | src/ui/multiStepInput.ts:131-156 | a change validation's message is shown only if it is still the latest; the initial one is never shown; an accept validation resolves with the accepted text exactly when its message is falsy, and re-enables the box |
| MultiStep.InputBox.OnTriggerButton | src/ui/multiStepInput.ts:133-139 | Back signals Back, any other button on the box resolves with itself |
| MultiStep.InputBox.OnHide | src/ui/multiStepInput.ts:158-162 | a hide signals Resume when `shouldResume` yields true, otherwise Cancel |
| MultiStep.ValidationRaceScenario | src/ui/multiStepInput.ts:150-157 | two changes whose validations complete out of order, with different messages, show the later change's message, not the stale one |
| MultiStep.AcceptScenario | src/ui/multiStepInput.ts:140-149 | an accept whose validation fails leaves the box open and enabled; a later accept that validates resolves with the text |
| Commands.FirstActive | src/extension.ts:932 | the index of the first pick of the active repository, or -1 when there is none |
| Commands.PickRepository | src/extension.ts:920-943 | no repositories is an error; otherwise the shown picks are a permutation of the picks in which the active repository's first pick leads and the others keep their order, or the original order when none is active; the result is the chosen pick's repository |
| Commands.MovedToFront | src/extension.ts:935-937 | `splice` then `unshift` moves pick i to the front, keeps the other picks in order, and loses or adds none |
| Commands.Ending | src/extension.ts:967 | a callback that runs is never rejected; it ends in a throw exactly when it throws, and then with its own error |
| Commands.CommandGate.constructor | src/extension.ts:946 | the gate starts open |
| Commands.CommandGate.Dispatch | src/extension.ts:960-973 | while a callback runs, a new command is rejected with a notification and its callback is not called; otherwise the callback runs and the gate is open again afterwards, whether it returned or threw |
| Commands.GateScenario | src/extension.ts:963-970 | a command started from inside a callback is refused; a callback that throws still reopens the gate for the next command |
| Commands.ProjectSlug | src/extension.ts:511-516 | a slug of slug characters and at most 62 characters; without the prefix setting, the name's own slug |
| Commands.ProjectSlugStartsWithPrefix | src/extension.ts:511-516 | with the prefix setting and a clean prefix, the project slug starts with the season string, `-` and the template prefix |
| Commands.ProjectSlugPrefixExample | src/extension.ts:511-516 | with the prefix setting in September 2024 and template `v5-4815lib`, every project slug starts with `2425-v5` |
| Commands.CheckProjectName | src/extension.ts:531-572 | no message exactly when the name and slug are 3 to 62 characters long, neither is on the remote list, and the project folder does not exist; a clash message follows the create-remote flag |
| Commands.FirstProblem | src/extension.ts:531-569 | none exactly when every check passes; otherwise the first failing check |
| Commands.Checks | src/extension.ts:531-569 | there are five checks, and all pass exactly when the name is acceptable |
| Commands.FirstProblemOfFive | src/extension.ts:531-569 | of five checks, the first failing one is reported, or none |
| Commands.ValidationReportsFirstFailure | src/extension.ts:531-569 | validation reports the first failing check among name length, slug length, slug clash, name clash and folder, in that order |
| Commands.SlugNeverTooLong | src/extension.ts:535 | the slug-length message is only ever about a slug that is too short |
| Commands.BoundedSlugFailsOnlyShort | src/extension.ts:535 | a slug of at most 62 characters fails its length check only by being too short |
| Commands.NamePrompt.Validate | src/extension.ts:526-577 | the message is that of the validation chain, and the prompt previews the slug exactly when the name passed |
| Commands.HasKey | src/extension.ts:429-430 | true exactly when some picked item has the key |
| Commands.CreateOptions | src/extension.ts:429-430 | `isCreateRemote` exactly when some picked item has key `createRemote`, and `isPullTemplate` likewise for `pullTemplate` |
| Commands.OptionsIgnoreOrder | src/extension.ts:429-430 | the flags depend only on which items were picked, not on their order or repetition |
| Commands.UnsavedRepoDocuments | src/extension.ts:124-126 | a document is kept exactly when it is not untitled, is dirty and lies under the repository root |
| Commands.UnsavedKeepsOrder | src/extension.ts:124-126 | the filter keeps the documents' order: it distributes over concatenation |
| Commands.InIndex | src/extension.ts:149 | true exactly when some index change has a path equal to the document's |
| Commands.AddBacks | src/extension.ts:148-150 | a saved document is added back exactly when its path equals that of some index change |
| Commands.AddBacksKeepOrder | src/extension.ts:148-150 | the add-back filter keeps the documents' order |
| Commands.PlanBackup | src/extension.ts:124-154 | the backup stops exactly when there are unsaved documents and the dialog was dismissed; with "Save All & Commit" all of them are saved and exactly the paths of the saved documents that are in the index are added back; otherwise nothing is saved; every path added back is in the index |

## Left out

- Numbers are unbounded integers. JavaScript's floating-point numbers, and the fractional `percent` a caller could pass to `set`, are not modelled.
- String lengths count characters, not UTF-16 code units. Lower-casing is ASCII only: the slug holds only ASCII after its first stage, and paths with non-ASCII letters are folded as they are.
- Localised message text (`vscode.l10n.t`) becomes tags such as `NameProblem` and `Report.message`. `getDateString`, which depends on locale and time zone formatting, is not modelled.
- Promises, `await` and event wiring are not modelled as concurrency. Each host event is one method call or one element of an ordered input. `shouldResume()` is collapsed into the boolean its promise yields.
- The clock is an input. `timeSince` takes the current time as a parameter, and the season takes the year and month.
- Utils.CompetitionSeasonYears: years are natural numbers, so negative years are left out.
- The git, filesystem, network and VS Code calls are inputs: the open repositories, the active editor's repository, `stat`, the remote repository list, the open documents and the user's answers to dialogs. These include `repo.add` and `document.save`, which are only named in the plan `PlanBackup` returns. The Bitbucket client, the VEX/flow command sequencing and everything else in `src/bitbucket.ts`, `src/flow.ts` and `src/vex.ts` are not part of this model.
- In `showQuickPick`, `activeItems` and the preset `selectedItems` only choose what the host displays first. The host then reports the selection as an event, so the presets are left out. `Object.assign(input, rest)` and the titles and placeholders are cosmetic and are left out too.
- The warning dialog's wording for one unsaved file against several is text only. The early `return false` when `backupChanges` finds no repository is I/O orchestration; both are left out.
- The configuration object the command gate stores while a callback runs is only read elsewhere. The gate is modelled as a flag.
- Utils.SplitCamel: its own contract states only the shape of the result; the exact output, dash by dash, is stated by `Utils.SplitCamelAppend`, kept as a separate lemma so that the proofs that unfold the split stay cheap.
- Commands.UnsavedRepoDocuments: the contract states membership and order (`Commands.UnsavedKeepsOrder`), not the multiplicity of duplicate documents. Open documents are distinct in the host.
- Commands.AddBacks: likewise, membership and order (`Commands.AddBacksKeepOrder`) are stated, not multiplicity.
- Commands.CommandGate.Dispatch: what a command's promise does after the callback has returned is outside the gate, and the model leaves it out.
