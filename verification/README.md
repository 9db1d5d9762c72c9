# README Creator core, modelled in Dafny

This project models the logic behind the "Generate README" command of the VS Code
extension in `extension.js`. The command runs these steps:

- It resolves the Groq configuration from the editor settings, the process
  environment and a built-in default.
- It collects the project overview, the repository link and extra names to ignore.
- It draws the workspace folder as a box-drawing tree, skipping ignored names.
- It wraps the tree in a Markdown fence.
- It sends the user prompt to the chat-completion service and maps every failure to
  one error message.
- It writes `README.md`. When the file already exists it asks whether to overwrite,
  back up or cancel.

The model is pure: the folder is a snapshot value (`Listing.Node`), the service is a
function from request to outcome (`Pipeline.Request -> Generation.Exchange`), the
workspace is a map from file name to contents, and the clock is a timestamp string
parameter.

Modules, following the program's classes:

| module | models |
|---|---|
| `Outcomes` | `Option`, `Result`, JavaScript truthiness of strings and `a \|\| b` |
| `Text` | `String.prototype.trim`, `includes`, `split`/`join` on one character, character replacement |
| `Decimal` | the decimal text of the HTTP status in `API Error (<status>)` |
| `LexOrder` | the default `Array.prototype.sort` order on names (a total order) |
| `Listing` | directory snapshot, the sort and the ignore filter |
| `TreeRender` | `drawTreeToMd`: connectors, prefixes, comments, recursion, skipped entries |
| `IgnoreList` | the default names, custom names, `getIgnoredFiles`, the comma-separated input |
| `FolderStructure` | `generate`: folder name, fence |
| `Config` | `ConfigManager.getConfig` and the key check of `validateConfig` |
| `Generation` | the user prompt and the error mapping of `generateSummary` |
| `ProjectInput` | the link validator and `collectProjectInfo` |
| `Persistence` | `FileManager.saveReadme` |
| `Pipeline` | `generateReadme` from configuration check to saved file or error message |

Three behaviours of the program that are easy to misread:

- **Connectors.** Whether an entry is drawn with the "last" connector depends on its
  index in the filtered listing. That index is fixed before any `stat`, so if the
  final entry cannot be accessed, no line in that directory gets the "last"
  connector. `TreeRender.LevelOrderAndConnectors` states exactly this.
- **Network errors.** Only the `ENOTFOUND` code counts as a network error. A timeout,
  a refused connection or any other failure without a response becomes
  `Generation failed: <message>`.
- **Sort order.** JavaScript's default sort compares UTF-16 code units. The model
  compares Unicode code points instead (see "Left out").

## Model

| member | source | states |
|---|---|---|
| Text.Trim | extension.js:55-56 | `String.prototype.trim`; its contract is `Text.TrimSpec` |
| Text.TrimSpec | extension.js:55-56 | `trim` removes a run of white space at each end and keeps the rest as a contiguous slice; its result has no space at either end; it is empty exactly when the input is all space; trimmed input is returned unchanged |
| Text.TrimIdempotent | extension.js:157 | trimming twice is trimming once |
| Text.TrimEmpty | extension.js:370 | `!value.trim()` holds exactly when every character is white space |
| Text.IncludesAt | extension.js:373 | `includes` holds exactly when the pattern occurs at some position |
| Text.Split | extension.js:395 | `split` yields at least one field and no field holds the separator |
| Text.JoinSplit | extension.js:395 | joining the fields of `split` with the separator gives back the input |
| Text.SplitJoin | extension.js:395 | splitting a join of separator-free fields gives back the fields |
| Text.SplitAtSeparator | extension.js:294-296 | text before the first separator is the first field and the rest splits independently |
| Text.ReplaceChars | extension.js:420 | a global character-class replace keeps the length, substitutes each target character and keeps every other one |
| Decimal.NatToString | extension.js:330 | the status text is a non-empty run of digits without a leading zero |
| Decimal.ParseNatToString | extension.js:330 | reading back the status text gives the status |
| LexOrder.Total | extension.js:185 | any two names are ordered one way or the other |
| LexOrder.Transitive | extension.js:185 | the name order is transitive |
| LexOrder.Antisymmetric | extension.js:185 | names ordered both ways are equal |
| Listing.SortByName | extension.js:185 | `files.sort()`, an insertion sort by name; `Listing.SortByNameSpec` states it is sorted and a permutation |
| Listing.Unignored | extension.js:191 | the ignore filter; `Listing.UnignoredMembers` and `Listing.UnignoredSorted` state what it keeps and that it keeps the order |
| Listing.Listed | extension.js:184-191 | the listing keeps exactly the entries whose name is not ignored |
| Listing.SortByNameSpec | extension.js:185 | the sorted listing is ordered by name and is a permutation of the directory's entries |
| Listing.InsertSorted | extension.js:185 | inserting into a sorted listing keeps it sorted |
| Listing.UnignoredMembers | extension.js:191 | the filter keeps exactly the entries with a name outside the ignore list |
| Listing.UnignoredSorted | extension.js:191 | the filter keeps the sorted order |
| Listing.ListedSorted | extension.js:185-191 | the filtered listing is ordered by name |
| TreeRender.Comment | extension.js:159-166 | a line carries an annotation exactly when its name is in the six-entry comment table |
| TreeRender.RenderListing | extension.js:182-221 | `drawTreeToMd` on a snapshot, as structured lines; its contract is carried by `TreeRender.ListingNames`, `TreeRender.RenderCount`, `TreeRender.ListingShape` and `TreeRender.LevelOrderAndConnectors` |
| TreeRender.EntryLines | extension.js:194-214 | the loop body for one entry; `TreeRender.EntryTopLevel`, `TreeRender.EntryChildPrefix` and `TreeRender.EntryNames` state what it draws |
| TreeRender.DrawTree | extension.js:204 | one text line per drawn entry |
| TreeRender.ListingNames | extension.js:182-221 | the names drawn under a directory are, counted with multiplicity, the accessible non-ignored names reachable through listable directories |
| TreeRender.ListedReached | extension.js:185-191 | sorting and filtering do not change which names are reached |
| TreeRender.RenderCount | extension.js:193-215 | the drawing has exactly one line per reached name |
| TreeRender.RenderOmitsIgnored | extension.js:191 | no drawn line carries an ignored name, at any depth |
| TreeRender.ContentsOmitIgnored | extension.js:191 | no reached name is ignored |
| TreeRender.ListingShape | extension.js:204-208 | every line under a directory starts with that directory's prefix and carries the comment of its own name |
| TreeRender.EntryChildPrefix | extension.js:206-208 | the lines below an entry start with the entry's prefix extended by four spaces when the entry is last, and by `│` and three spaces otherwise |
| TreeRender.EntryTopLevel | extension.js:197-214 | an inaccessible entry draws nothing; an accessible one draws its line at the current prefix |
| TreeRender.FromTopLevel | extension.js:193-215 | the lines at a directory's own prefix are its accessible entries, in listing order, with their connectors |
| TreeRender.SiblingsConnectors | extension.js:199-200 | every sibling but the final one is drawn with the branch connector; the final one has the last connector exactly when the final listed entry is accessible |
| TreeRender.LevelOrderAndConnectors | extension.js:185-215 | at each level the drawn names are in name order, only the last line may use the last connector, and it does so exactly when the final filtered entry is accessible |
| TreeRender.ConstructorIsAnnotatedAsWritten | extension.js:201-202 | with the lookup as written, a file named `constructor` is annotated with the text of `Object` |
| TreeRender.CommentAgreesOffPrototype | extension.js:201-202 | the lookup as written agrees with the table lookup on every name not inherited from `Object.prototype` |
| IgnoreList.TrimEachSpec | extension.js:157 | every trimmed custom name has no white space at either end, is the slice of its original left after the leading white space, and is empty exactly when the original is all white space |
| IgnoreList.CustomIgnores | extension.js:157 | the trimmed, non-empty custom names; its contract is `IgnoreList.CustomIgnoresSpec` |
| IgnoreList.CustomIgnoresSpec | extension.js:157 | the kept custom names are exactly the non-empty trimmed names; each is non-empty and trimmed |
| IgnoreList.NonEmptySpec | extension.js:157 | `filter(Boolean)` keeps exactly the non-empty names |
| IgnoreList.IndexOf | extension.js:179 | the position found is the first occurrence |
| IgnoreList.Dedup | extension.js:179 | `[...new Set(xs)]`; its contract is `IgnoreList.DedupSpec` |
| IgnoreList.DedupSpec | extension.js:179 | `[...new Set(xs)]` holds the same names as `xs`, each once, in order of first occurrence |
| IgnoreList.DedupPrefix | extension.js:178-179 | de-duplicating a concatenation starts with the de-duplicated first part |
| IgnoreList.IgnoredFiles | extension.js:176-180 | `getIgnoredFiles`; its contract is `IgnoreList.IgnoredFilesSpec` |
| IgnoreList.IgnoredFilesSpec | extension.js:176-180 | the ignore list holds each non-empty trimmed custom name and each default name exactly once and nothing else, with the custom names first |
| IgnoreList.ParseExtraIgnores | extension.js:395 | the third input step's comma-separated names; `IgnoreList.ParsedNamesMembers`, `IgnoreList.ParsedNamesShape` and `IgnoreList.ParsedNamesStable` state its contract |
| IgnoreList.ParsedNamesMembers | extension.js:395 | the extra names are exactly the non-empty trimmed comma-separated fields |
| IgnoreList.ParsedNamesShape | extension.js:395 | every extra name is non-empty, trimmed and free of commas |
| IgnoreList.ParsedNamesStable | extension.js:155-157 | trimming and filtering the parsed names again in the generator changes nothing |
| FolderStructure.StripTrailingSeparators | extension.js:225 | removing the trailing run of `/` and `\` leaves a prefix that does not end with a separator |
| FolderStructure.LastSegment | extension.js:225 | the base name is a suffix without `/` that follows the last `/` |
| FolderStructure.FolderNameSpec | extension.js:225 | the folder name has no `/`, does not end with a separator, and uses only characters of the path |
| FolderStructure.Markdown | extension.js:234 | the text opens with a fence line and closes with a fence line |
| FolderStructure.MarkdownLines | extension.js:230-234 | between the fences the lines are the folder name with `/`, then the tree lines |
| FolderStructure.Generate | extension.js:223-237 | `generate`; its own ensures bounds the text length, and `FolderStructure.GenerateLines` and `FolderStructure.MarkdownLines` state its lines |
| FolderStructure.GenerateLines | extension.js:223-237 | the fenced body has one line more than the reached names, and its first line is the folder name |
| Config.FirstTruthy | extension.js:46-52 | the chain's value is the value of some defined non-empty candidate, or, when no candidate is defined and non-empty, the fallback |
| Config.FirstTruthyAt | extension.js:46-52 | the chain yields the first defined non-empty candidate |
| Config.SourcesAreFirstTruthy | extension.js:46-52 | the key chain and the model chain are first-truthy choices over settings, then environment, then default |
| Config.GetConfig | extension.js:42-59 | `ConfigManager.getConfig`; `Config.GetConfigChains` and the lemmas after it state its contract |
| Config.GetConfigChains | extension.js:42-59 | the resolved key and model are the trimmed first-truthy candidates |
| Config.SettingsTakePrecedence | extension.js:46-52 | a non-empty setting decides the field whatever the environment holds |
| Config.BlankSettingShadowsEnvironment | extension.js:46-62 | a setting of only spaces wins the chain, trims to the empty key, and the key counts as missing |
| Config.KeyFromEnvironment | extension.js:46-48 | with no key setting, `GROQ_API_KEY` comes before `GROQ_API_TOKEN`, and the empty key is the fallback |
| Config.ModelFromEnvironment | extension.js:50-52 | with no model setting, `DEFAULT_MODEL` comes before the built-in model |
| Config.DefaultModelTrimmed | extension.js:50-56 | the built-in model name survives trimming |
| Config.AutoOpenDefault | extension.js:57 | `autoOpen` is on unless the setting is `false` |
| Config.ConfiguredIff | extension.js:60-77 | the command proceeds exactly when the winning key candidate is not all white space |
| Generation.UserPrompt | extension.js:294-296 | the user message; `Generation.PromptFields` reads its three fields back |
| Generation.PromptFields | extension.js:294-296 | the user prompt's first line is the overview (or its placeholder), the second is the link, and the rest is the folder structure (or its placeholder) |
| Generation.HeadersAreOneLine | extension.js:294-295 | the field labels and the overview placeholder hold no line break |
| Generation.Classify | extension.js:327-330 | an error status is reported with its status and the service's message, or `Unknown API error` |
| Generation.GenerateSummary | extension.js:292-336 | `generateSummary` after the request has settled; the `Generation.Summary*` lemmas and `Generation.ParseDescribe` state its contract |
| Generation.SummarySucceeds | extension.js:316-322 | the summary succeeds exactly when the first choice has a message with content, and its value is that content trimmed |
| Generation.SummaryOfErrorStatus | extension.js:327-330 | an error status yields `API Error (<status>): <message>` |
| Generation.SummaryWithoutResponse | extension.js:331-335 | with no response, `ENOTFOUND` yields the network message and any other failure yields `Generation failed: <message>` |
| Generation.SummaryOfEmptyAnswer | extension.js:316-334 | a response without data or choices yields `Generation failed: Invalid response from Groq API` |
| Generation.ParseDescribe | extension.js:327-335 | each error message can be read back into the failure it describes |
| Generation.DescribeInjective | extension.js:327-335 | different failures have different messages |
| ProjectInput.ValidateRepoLink | extension.js:369-377 | the link step's `validateInput`; its contract is `ProjectInput.ValidateRepoLinkSpec` |
| ProjectInput.ValidateRepoLinkSpec | extension.js:369-377 | a link is accepted exactly when it has a non-space character and contains `github.com`; it is called missing exactly when it is all white space |
| ProjectInput.CollectProjectInfo | extension.js:342-397 | `collectProjectInfo` with the answers as parameters; its contract is `ProjectInput.CollectedInfo` |
| ProjectInput.CollectedInfo | extension.js:342-397 | information is produced exactly when there is a workspace and neither of the first two steps was dismissed; then the link is non-empty and contains `github.com` after trimming, and the extra names are non-empty and comma-free |
| ProjectInput.TrimKeepsInfix | extension.js:373-393 | trimming keeps every occurrence of a pattern whose ends are not spaces, so the trimmed link still contains `github.com` |
| Persistence.SanitizeTimestamp | extension.js:420 | the timestamp keeps its length; each `:` and `.` becomes `-`, and every other character stays where it was |
| Persistence.BackupName | extension.js:420-421 | the backup file name; `Persistence.BackupNameDiffers` states it never clashes with `README.md` |
| Persistence.BackupNameDiffers | extension.js:421 | the backup name is never `README.md` |
| Persistence.SaveReadme | extension.js:402-436 | the save fails, with the cancellation message, exactly when `README.md` exists and the dialog is cancelled or dismissed; otherwise `README.md` holds the content |
| Persistence.SaveFresh | extension.js:406-427 | with no `README.md`, no dialog decides anything: the file is added and nothing else changes |
| Persistence.SaveOverwrite | extension.js:415-427 | overwriting replaces `README.md` and nothing else |
| Persistence.SaveWithBackup | extension.js:419-427 | a backup adds the timestamped copy of the old `README.md` before it is replaced, and changes nothing else |
| Persistence.SaveKeepsOthers | extension.js:402-436 | files other than `README.md` and the backup are never touched, added or removed |
| Pipeline.GenerateReadme | extension.js:459-541 | `generateReadme` up to the saved file or the shown error; `Pipeline.UnconfiguredDoesNothing`, `Pipeline.FinishSpec` and `Pipeline.SavedOnlyAfterReply` state its contract |
| Pipeline.UnconfiguredDoesNothing | extension.js:459-464 | without a usable key the command stops before any input step, request or write |
| Pipeline.FinishSpec | extension.js:491-531 | the README is saved exactly when the reply is text and the overwrite is not refused; then it holds that text; otherwise the error is shown behind `Failed to generate README: ` |
| Pipeline.SavedOnlyAfterReply | extension.js:459-504 | a saved README means the key was usable, the information was collected, the request carried the resolved key and model, and the reply was text |

## Left out

- The editor UI is left out: dialogs, progress notifications, the logger, the success actions and the "Try Again" action that re-runs the command. Each dialog answer is a parameter (`Pipeline.Answers`, `Persistence.Decision`).
- The file system is a value. The folder is a `Listing.Node` snapshot. A failing `readdir` or `stat` is a `Dir` marked unlistable or an `Inaccessible` entry. The workspace files are a map, and the error messages logged for skipped entries are not modelled.
- The HTTP request is not modelled: no axios, no headers, no timeout, no request body fields. It is a function parameter `server`. Only the model, key and user prompt of the request are modelled.
- The system prompt and the `templates/prompt.md` sample it embeds are fixed text read from disk, so they are not modelled.
- `dotenv` and the `.env` file are left out. The `configure`, `preview` and `createEnvTemplate` commands and `showEnvInstructions` are outside this core.
- `new Date().toISOString()` is a timestamp parameter. Opening the saved document when `autoOpen` is set is UI and is left out.
- Choosing the workspace folder from a URI is left out: the `stat` and `dirname` of the command's argument, or the first workspace folder. The chosen folder is a parameter, and its absence is the "No workspace folder found" error.
- The model sorts names by Unicode code point. JavaScript's default sort compares UTF-16 code units, and the two orders differ only between names holding characters above U+FFFF. The model does not sort by bytes either.
- `path.basename` is modelled with POSIX semantics (`/` only). A trailing `\` is stripped, as the regular expression does. Windows separators inside the path are not.
- Node's `TypeError` messages for a missing `message` or `content` field are modelled as fixed text.
- The sort is an insertion sort. Engines may order equal names differently, but one directory never lists a name twice.
- Generation.Classify: its own ensures covers only the error-status case. The full mapping is stated by `Generation.SummarySucceeds`, `Generation.SummaryOfErrorStatus`, `Generation.SummaryWithoutResponse` and `Generation.SummaryOfEmptyAnswer`.
- TreeRender.DrawTree: the drawing annotates names through the table-only lookup `TreeRender.Comment`, not through the prototype lookup the source performs. For a file named `constructor` the model draws no annotation, while the source appends the text of `Object`; see "Findings".
- Persistence.SaveReadme: failures of the copy and of the write are not modelled, so the save fails only by cancellation. In the source such a failure surfaces as `Failed to generate README: <message>`.
- FolderStructure.Generate: its ensures gives only a length bound. The line structure is stated by `FolderStructure.GenerateLines`.
- TreeRender.DrawTree: its ensures gives only the line count. The line contents are stated by the `TreeRender` lemmas over the structured lines that `DrawTree` formats.

## Findings

| source | as written | input that shows it | evidently intended | confidence | as-written member | corrected member |
|---|---|---|---|---|---|---|
| extension.js:201-202 | `this.fileComments[file] \|\| ""` looks the name up on a plain object, so names inherited from `Object.prototype` also find a value | a file named `constructor` is drawn with `  # function Object() { [native code] }` (likewise `toString`, `valueOf`, `__proto__`, …) | only the six names of the comment table carry an annotation | high; not executed | TreeRender.ConstructorIsAnnotatedAsWritten | TreeRender.CommentAgreesOffPrototype |

The renderer in this model uses `TreeRender.Comment`, which looks the name up only
among the table's own keys. Its contract says that a line is annotated exactly when
its name is in the table. `TreeRender.CommentAsWritten` models the lookup as the
source writes it.
