# Madeira: models and proofs

Madeira starts Windows programs on iOS through Wine, FEX and DXMT. This project models the parts
of its app side that decide things (what a launch gets, what a prefix records, what the player's
fingers and keys mean) and proves what they promise. Code that changes things step by step is
modelled as methods and classes that change fields, each proved against a function of the old
state; what is promised over inputs and over runs is proved about those functions.

| part | modules |
|---|---|
| Compatibility plans: closure, order, attempts, layers, environment, registry values | `DependencyOrder`, `DependencyClosure`, `PlanLayers`, `PlanFold`, `PlanRegistry`, `GamePlan`, `PlanRequests`, `LaunchRuns` |
| Editing Wine's .reg text | `RegistryLines`, `RegistryEdits`, `RegistryEditLists`, `CompatRegistryText`, `RegistryClashes`, `RegistryData` |
| One-time installs: scripts, records, batches, the protocol over app starts | `InstallScripts`, `InstallScriptLaws`, `InstallRecords`, `InstallDwords`, `InstallMark`, `InstallMarkLaws`, `InstallBatch`, `InstallBatchLaws`, `InstallShell`, `InstallResultSizes`, `InstallProtocol`, `InstallProtocolLaws` |
| The log table and the tail reader | `LogTable`, `LogTableLaws`, `LogTableRuns`, `LogTableCounts`, `LogLines` |
| Keyboard, mouse motion and touch pointer | `HardwareKeys`, `HardwareMotion`, `TouchPointer`, `TouchPointerLaws`, `TouchGestures` |
| The prefix archive | `PrefixArchive`, `PrefixArchiveLaws` |
| The launch record and its report | `LaunchRecord`, `LaunchRecordLaws`, `LaunchReport` |
| The configuration file and path spellings | `ConfigFile`, `PathSpelling` |
| Shared text and number laws | `Text`, `Patterns`, `Numbers`, `CompatModel` |

Text is a sequence of ASCII characters, bytes are characters below 256, and `Double` is `real`.

## Where the code does not do what one would expect

Each of these is proved together with the exact condition under which the expected behaviour holds,
and where it fails, with a concrete input; for the check of new log lines the condition goes one way.

- A disabled component that a component of the launch requires takes part in the plan after all: the
  depth-first order does not look at the disabled set (`GamePlan.DisabledStaysOut`,
  `DependencyClosure.DisabledNeedIsOrdered`).
- A requirement, with everything it pulls in, comes before what needs it in the order of every
  request exactly when it does not lead back (`DependencyOrder.NeedComesFirst`); what is pulled in
  only around a cycle may come later (`DependencyOrder.IndirectNeedMayComeLater`).
- A variable is both set and unset when a layer empties WINEDLLOVERRIDES and the plan has DLL
  orders (`PlanFold.SetAndUnsetMeet`, `PlanFold.EmptiedOverridesAreSet`).
- An earlier game's DLL overrides and DXMT_CONFIG options do follow into the next game's session,
  although app/Madeira/Library.swift:354-355 says they cannot: a plan is made before the variables of
  the last one are taken away, and merges with what it finds there (`LaunchRuns.OverridesAfter`,
  `LaunchRuns.EntryFollows`, `LaunchRuns.EarlierGameFollows`, `LaunchRuns.OptionsCarryOver`).
- A Windows version comes from the first component that names one; everything else merges last
  over first (`PlanLayers.MergeSources`).
- Two registry keys share a section when the header of one is the start of the other's, which takes
  a "]" in a key; then the earlier value is lost unless a later one puts it back
  (`RegistryClashes.ValueSurvives`, `RegistryClashes.BracketKeysClash`).
- A run whose name holds "=dword:" or a line break never reads back as recorded
  (`InstallMarkLaws.MarkedAfter`, `InstallMarkLaws.BrokenNeverRecorded`), and recording a name with a
  line break can hide the value of another run (`InstallMarkLaws.BrokenNameHidesValues`).
- A program path with a line break is accepted and breaks its batch line
  (`InstallBatchLaws.BatchHasItsLines`, `InstallBatchLaws.BreakingPathIsAccepted`).
- A reported success is lost when the registry file is not there yet or the result file is too long,
  since the report is cleared all the same (`InstallProtocolLaws.SuccessIsRecorded`).
- A game's choice turns to Skip even when the batch could not be written
  (`InstallProtocolLaws.RunningTurnsToSkip`, `InstallProtocolLaws.SkippedUnrun`).
- The check of new log lines against the live rows (app/Madeira/LogStore.swift:263) does find a row:
  an eviction numbers the rows anew and forgets the lines that wait, so the next one of their kind is
  taken for new again (`LogTableRuns.LateLineMeets`, `LogTableRuns.LateLineHappens`). Without an
  eviction while lines wait it never does (`LogTableRuns.CalmRunsNeverMeet`).
- A log line of more than a megabyte is delivered or not depending on how its bytes arrive
  (`LogLines.StaysInSync`, `LogLines.LongLineMatters`).
- Two fingers whose middle passes height 0 lose the travel of their next move, since 0 stands for "no
  last point" (`TouchPointerLaws.NoStepIsLost`, `TouchPointerLaws.ZeroHeightLosesTravel`).
- Setting a key in madeira.cfg takes a carriage return off the value of another key when that key's
  last line ends in one (`ConfigFile.ReadAfterSet`, `ConfigFile.ReturnIsLost`).

## Model

| member | source | states |
|---|---|---|
| DependencyClosure.Close | app/Madeira/GameCompat.swift:766-812 | The two-queue worklist ends, and lists without repetition exactly the least pair of component and recipe sets that holds the admitted seeds and is closed under all four kinds of reference, the seeds first and in their order |
| DependencyClosure.Expand | app/Madeira/GameCompat.swift:800-811 | One expansion keeps the worklist's invariant: what is expanded is followed, nothing is listed that a closed pair can do without |
| DependencyClosure.OrderAddsOnlyDisabledNeeds | app/Madeira/GameCompat.swift:772-825 | The depth-first order holds every requested component, and nothing else exactly when no component that every closed pair holds requires a disabled one |
| DependencyClosure.DisabledNeedIsOrdered | app/Madeira/GameCompat.swift:772-824 | A catalogue, a seed and a disabled component that is ordered all the same |
| DependencyOrder.Resolve | app/Madeira/GameCompat.swift:818-824 | The nested function continues the order as the post-order visit does, cycles included, and terminates |
| DependencyOrder.Order | app/Madeira/GameCompat.swift:814-825 | The order is the post-order of the requested components |
| DependencyOrder.OrderIsSound | app/Madeira/GameCompat.swift:814-825 | For any catalogue the order has no duplicates, holds exactly the ids reachable through `requires`, and puts a direct requirement first unless it leads back |
| DependencyOrder.NeedComesFirst | app/Madeira/GameCompat.swift:814-825 | A requirement of a component and everything it pulls in come before that component in the order of every request exactly when the requirement does not lead back to it, whatever cycles there are elsewhere |
| DependencyOrder.EverythingComesFirst | app/Madeira/GameCompat.swift:814-825 | The order is topological at a component, for every request, exactly when the component is on no cycle |
| DependencyOrder.IndirectNeedMayComeLater | app/Madeira/GameCompat.swift:818-824 | A concrete catalogue with a cycle in which an indirect requirement that does not lead back comes later |
| PlanLayers.MergeSources | app/Madeira/GameCompat.swift:832-921 | All merges in source order refine a lookup that asks the layers from the user down to the baseline, for variables, DLL orders, registry order and the version (where the first component wins) |
| PlanLayers.Merge | app/Madeira/GameCompat.swift:1218-1242 | A merged recipe, rule, fallback or remedy overwrites what it names and leaves the rest |
| PlanLayers.MergeComponent | app/Madeira/GameCompat.swift:1211-1216 | A merged component overwrites like the others but keeps an earlier version |
| PlanLayers.MergeBaseline | app/Madeira/GameCompat.swift:1244-1254 | The baseline only fills in what no layer said, and its registry values go below all others |
| GamePlan.SelectFallback | app/Madeira/GameCompat.swift:736-741 | The loop finds the fallback of the first profile that has that many |
| GamePlan.AttemptsFormALadder | app/Madeira/GameCompat.swift:734-755 | Attempt numbers select the profile, then each fallback, then each remedy, without gap or overlap |
| GamePlan.Survey | app/Madeira/GameCompat.swift:833-862 | A component is merged exactly when it is provided or all its payload files are present; the others are reported |
| GamePlan.MakePlan | app/Madeira/GameCompat.swift:723-990 | The plan is empty when disabled, and else comes from the least closed pair, its depth-first order, the layered lookup, the fold with both merged variables and the program's own registry values |
| PlanRequests.PlanAsksForWhatIsNamed | app/Madeira/GameCompat.swift:734-812 | A plan asks for exactly what the launch's profiles, baseline, rules, remedy and fallback in force, the user and the imports name and no list in force disables, and what chains of entries lead to from there |
| PlanRequests.NamedComeFirst | app/Madeira/GameCompat.swift:780-798 | What is named comes first, in the order in which the lists are gone through |
| PlanRequests.LayersOfALaunch | app/Madeira/GameCompat.swift:832-921 | The layers of a launch from the highest down, told by its fields: user, remedy, fallback, profiles, rules last first, recipes last first, the components that are there last first, baseline |
| PlanRequests.AttemptsAre | app/Madeira/GameCompat.swift:734-755 | The fallback in force is that of the first profile whose list is long enough, the remedy in force is counted from behind the longest list |
| GamePlan.VariableComesFromHighestLayer | app/Madeira/GameCompat.swift:832-948 | After the plan is applied every variable holds the value of the highest layer that defines it, is gone where that is empty, and is untouched where no layer does; WINEDLLOVERRIDES and DXMT_CONFIG hold what is merged with the launch's own |
| GamePlan.LaunchOverridesAreKept | app/Madeira/GameCompat.swift:930-938 | WINEDLLOVERRIDES keeps the launch's entries for other DLLs in order and ends with one entry for each DLL of the plan |
| GamePlan.LaunchOptionsAreKept | app/Madeira/GameCompat.swift:943-948 | DXMT_CONFIG lists the launch's options first, then the new ones of the highest layer that has some, each once at its first place, and all of both |
| GamePlan.DisabledStaysOut | app/Madeira/GameCompat.swift:757-825 | A disabled component takes part exactly when some component that the launch pulls in requires it |
| GamePlan.VersionIsRead | app/Madeira/GameCompat.swift:976-980 | A program that reads the written registry finds the Windows version the layers decide under its own key |
| GamePlan.DllOrderIsRead | app/Madeira/GameCompat.swift:981-987 | A program that reads the written registry finds each DLL order of the plan under its DllOverrides key |
| PlanRegistry.OrderSpelled | app/Madeira/GameCompat.swift:1192-1201 | An order is written as the same words, "n" and "b" spelled out |
| PlanRegistry.ValuesAreFilled | app/Madeira/GameCompat.swift:962-970 | Every placeholder of a key and a name becomes the program's name, and nothing else changes |
| PlanFold.FoldEnv | app/Madeira/GameCompat.swift:923-928 | Empty values become unsets, each once, and all others stay set |
| PlanFold.Fold | app/Madeira/GameCompat.swift:923-948 | The fold, with the DLL orders merged into WINEDLLOVERRIDES in name order and the options into DXMT_CONFIG |
| PlanFold.MergeOptions | app/Madeira/GameCompat.swift:944-947 | The filter with its set of options seen keeps each option at its first place |
| PlanFold.OptionsAreMerged | app/Madeira/GameCompat.swift:943-948 | The merged list is the launch's options, then the plan's new ones, none twice, in the order of their first places, and holds all of both |
| PlanFold.MergeOrderReplaces | app/Madeira/GameCompat.swift:1204-1209 | One step replaces a DLL's entries by one at the end and keeps the others exactly when neither name nor order holds a semicolon |
| PlanFold.OneEntryPerDll | app/Madeira/GameCompat.swift:932-938 | After all steps there is one entry for each DLL of the plan, behind the others in their order |
| PlanFold.SetAndUnsetMeet | app/Madeira/GameCompat.swift:923-938 | Set and unset names are disjoint exactly unless WINEDLLOVERRIDES is emptied while DLL orders exist |
| PlanFold.EmptiedOverridesAreSet | app/Madeira/GameCompat.swift:923-938 | A plan with one DLL order in which WINEDLLOVERRIDES is both set and unset |
| PlanFold.Apply | app/Madeira/GameCompat.swift:1376-1379 | Unsets come before sets |
| PlanFold.HighestLayerDecides | app/Madeira/GameCompat.swift:923-948 | The folded environment gives a process what the layered lookup gives |
| PlanFold.LaunchEnvironment.Launch | app/Madeira/GameCompat.swift:1426-1432 | A launch takes away what the last plan set and this one does not, then applies its own |
| PlanFold.NothingOutlivesItsLaunch | app/Madeira/GameCompat.swift:1411-1433 | Over any run of launches a variable holds what the last plan set, is gone if only earlier plans touched it, and is as at the start if none did |
| LaunchRuns.OverridesAfter | app/Madeira/Library.swift:301-359 | Over any run of launches, each planned in the environment the earlier ones left, exactly which entries WINEDLLOVERRIDES holds |
| LaunchRuns.EntryFollows | app/Madeira/Library.swift:301-359 | While every game has DLL orders, the entry for a DLL is that of the last game that orders it, whichever game runs now |
| LaunchRuns.EarlierGameFollows | app/Madeira/Library.swift:301-359 | Two concrete games of which the first one's entry is still there in the second one's session |
| LaunchRuns.OptionsCarryOver | app/Madeira/Library.swift:301-359 | Over any run of launches exactly which options DXMT_CONFIG holds: those of earlier games stay until a game without options is launched |
| PlanRegistry.AddAppValues | app/Madeira/GameCompat.swift:960-990 | Placeholders are filled in place and the program's own values come last, DLL orders in name order |
| PlanRegistry.WriteHive | app/Madeira/GameCompat.swift:1386-1405 | The early exits write the same text as merging the hive's values would |
| PlanRegistry.HighestLayerIsRead | app/Madeira/GameCompat.swift:960-990 | For any pair a reader of the written file finds the program's own value, else the value of the highest layer that has one, if no later value of its hive clashes with it |
| PlanRegistry.HighestLayerSurvives | app/Madeira/GameCompat.swift:960-990 | That value reads back whatever the file held before exactly when everything that clashes with it is followed by a value that puts its line back |
| CompatRegistryText.WriteValue | app/Madeira/GameCompat.swift:1485-1504 | One value replaces its line, joins its section or adds one; nothing when its line is there |
| CompatRegistryText.Merge | app/Madeira/GameCompat.swift:1482-1506 | The merged text and the number of values written |
| RegistryData.MergedValueIsFound | app/Madeira/GameCompat.swift:1441-1506 | After the merge a reader of the file's format finds the number, text, bytes or strings a value stands for, if no later value clashes with it |
| RegistryData.DecimalDword | app/Madeira/GameCompat.swift:1461-1466 | Decimal text is read as decimal |
| RegistryData.HexDword | app/Madeira/GameCompat.swift:1461-1466 | Text with "0x" in front is read as hexadecimal |
| RegistryData.BareHexDword | app/Madeira/GameCompat.swift:1461-1466 | Hexadecimal text that is no decimal number is read as hexadecimal |
| RegistryData.OtherDword | app/Madeira/GameCompat.swift:1461-1466 | Text with anything else in it stands for 0 |
| RegistryData.DwordData | app/Madeira/GameCompat.swift:1450-1451 | A dword's data reads back as its number, in eight digits |
| RegistryData.StringData | app/Madeira/GameCompat.swift:1457-1458 | A string's data reads back as the string, whatever it holds |
| RegistryData.BinaryData | app/Madeira/GameCompat.swift:1454-1456 | Binary data reads back as its bytes |
| RegistryData.ListData | app/Madeira/GameCompat.swift:1452-1453 | A list of strings reads back up to its first empty string, whole exactly when none is empty |
| RegistryData.LinesOfAKey | app/Madeira/GameCompat.swift:1486-1488 | How headers and names stand in the file |
| RegistryData.NewKeyIsAppended | app/Madeira/GameCompat.swift:1500-1503 | A value of a new key comes behind the content with an empty line, its header and the time |
| CompatRegistryText.LastValueWins | app/Madeira/GameCompat.swift:1482-1506 | The first matching line of a (key, name) pair is the line of its last value, if no later value clashes with it |
| CompatRegistryText.PlainKeysNeverClash | app/Madeira/GameCompat.swift:1486-1489 | Where no key holds a "]" the last value given for a pair clashes with no later one |
| RegistryClashes.ValueSurvives | app/Madeira/GameCompat.swift:1482-1506 | For any list of values, one of them reads back from every text exactly when every value that clashes with it is followed by one that puts its line back under a key between them |
| RegistryClashes.FirstValueSurvives | app/Madeira/GameCompat.swift:1486-1489 | Of two values of different pairs the first stays in every text exactly unless their headers meet and their names are equal |
| RegistryClashes.BracketKeysClash | app/Madeira/GameCompat.swift:1486-1489 | Two concrete keys whose sections are taken for one |
| CompatRegistryText.MergeAgain | app/Madeira/GameCompat.swift:1482-1506 | Merging the same list again yields the same text |
| CompatRegistryText.MergeKeepsOtherLines | app/Madeira/GameCompat.swift:1482-1506 | Every other line with content keeps its content and order, and only blanks, the values' lines and new headers come between |
| CompatRegistryText.NoChanges | app/Madeira/GameCompat.swift:1495-1504 | Nothing counts as changed exactly when every value's line is there, and then the text is the same |
| RegistryEdits.PutReads | app/Madeira/GameCompat.swift:1489-1503 | After one edit a value reads as the new line if the edit hits it and as before otherwise |
| RegistryEdits.PutLocates | app/Madeira/GameCompat.swift:1489-1503 | Where every other value stands after an edit |
| RegistryLines.FindSectionEnd | app/Madeira/GameCompat.swift:1490-1491 | The loop stops at the next header or the end |
| RegistryLines.SkipBlanksBack | app/Madeira/GameCompat.swift:1496-1500 | The loops skip exactly the blank lines at the end |
| InstallScripts.ReadToken | app/Madeira/DockInstallers.swift:93-119 | The tokenizer reads the next token after blanks and comments and takes at least one byte |
| InstallScripts.Entries | app/Madeira/DockInstallers.swift:89-149 | The token loop with its token and depth limits |
| InstallScripts.EntriesAreSound | app/Madeira/DockInstallers.swift:131-140 | Whatever bytes a script holds, its runs are distinct, their names lowercase, their keys not empty and their values at least 1 |
| InstallScriptLaws.LayoutReads | app/Madeira/DockInstallers.swift:93-119 | Tokenizing undoes writing tokens, whatever blanks and comments stand between them |
| InstallScriptLaws.ScriptReadsBack | app/Madeira/DockInstallers.swift:120-149 | The entries of all "Run Process" sections come back in order with their fields, for any root key, spelling and spacing within the limits |
| InstallScriptLaws.RunReadsBack | app/Madeira/DockInstallers.swift:36-45 | A written run reads back with its key in clean form, and not at all when nothing of the key is left |
| InstallScriptLaws.RunsReadBack | app/Madeira/DockInstallers.swift:89-149 | Any list of distinct runs, spread over any number of sections, reads back as exactly that list |
| InstallRecords.ReadRecorded | app/Madeira/DockInstallers.swift:276-294 | The reader finds the largest number of the run's lines in both views |
| InstallRecords.DwordLower | app/Madeira/DockInstallers.swift:203-206 | Reading the lowercased line finds the same number |
| InstallMark.MarkKey | app/Madeira/DockInstallers.swift:161-174 | The loop body over one key of one run |
| InstallMark.Mark | app/Madeira/DockInstallers.swift:153-179 | The marked text and the number of values written |
| InstallMarkLaws.MarkedAfter | app/Madeira/DockInstallers.swift:153-299 | After marking, a run is marked exactly unless its name hides its number |
| InstallMarkLaws.MarkedTextAfter | app/Madeira/DockInstallers.swift:153-299 | The same for the text as the next reader splits it |
| InstallMarkLaws.MarkedInBothViews | app/Madeira/DockInstallers.swift:47-53 | A machine key below Software is found with its number in the 32-bit view too |
| InstallMarkLaws.RunLineData | app/Madeira/DockInstallers.swift:160-163 | The line of a run sets its number for any reader of the file |
| InstallMarkLaws.BrokenNeverRecorded | app/Madeira/DockInstallers.swift:276-294 | A run with a line break in its name or key is never found in any text |
| InstallMarkLaws.HiddenNeverRecorded | app/Madeira/DockInstallers.swift:203-206 | A run with "=dword:" in its name is never found in any text |
| InstallMarkLaws.RecordedNeverFalls | app/Madeira/DockInstallers.swift:153-179 | Marking lowers no run's recorded value |
| InstallMarkLaws.BrokenNameHidesValues | app/Madeira/DockInstallers.swift:153-179 | A concrete text and a name with a line break and a header in it, whose recording hides another run's value |
| InstallMarkLaws.RecordedRaisedBy | app/Madeira/DockInstallers.swift:153-179 | A recorded value is raised only by a marked run of the same name, under a key whose header meets one of its own, that asks for at least as much |
| InstallMarkLaws.MarkAgain | app/Madeira/DockInstallers.swift:153-179 | Marking again writes nothing exactly when no name hides its number, and then the text is the same |
| InstallMarkLaws.MarkKeepsOtherLines | app/Madeira/DockInstallers.swift:153-179 | Every line with content that is no target value keeps its content and order |
| InstallBatch.Plan | app/Madeira/DockInstallers.swift:304-319 | Every program's fate in order |
| InstallBatch.PendingComesFirst | app/Madeira/DockInstallers.swift:304-319 | The pending programs are the first runnable ones up to the limit, and the others wait |
| InstallBatch.Batch | app/Madeira/DockInstallers.swift:358-382 | The batch text is its commands line by line |
| InstallBatch.ReadResults | app/Madeira/DockInstallers.swift:396-421 | The reader of the result file |
| InstallBatchLaws.BatchHasItsLines | app/Madeira/DockInstallers.swift:358-382 | The lines of the batch text are its commands one for one exactly when no path or argument holds a line break |
| InstallBatchLaws.BreakingPathIsAccepted | app/Madeira/DockInstallers.swift:255-257 | A program path with a line break that passes the guard of its script |
| InstallShell.TextGivesEachItsStatus | app/Madeira/DockInstallers.swift:358-382 | The batch's text, run line by line by a command line that knows only the characters, gives at any place each program its own status under its own number, and the line before each exit line starts that program |
| InstallShell.TextLeavesResultFile | app/Madeira/DockInstallers.swift:358-382 | Running the text up to where a session was cut off leaves that session's result file |
| InstallBatchLaws.ResultsAgree | app/Madeira/DockInstallers.swift:358-421 | Whatever line a session was cut off at, the programs read as exited are the first ones, each with its own status under its own number, and those read as started the same or one more |
| InstallBatchLaws.ExitFollowsItsProgram | app/Madeira/DockInstallers.swift:366-379 | A status that is read was written right after the program with that number |
| InstallProtocol.DockInstalls.AbsorbResults | app/Madeira/DockInstallers.swift:700-731 | Successes of the last session list are recorded hive by hive, and result file and list are cleared |
| InstallProtocol.DockInstalls.Prepare | app/Madeira/DockInstallers.swift:592-652 | A start absorbs, plans at most eight programs, honours the choice, and writes batch and ledger |
| InstallProtocolLaws.StartRunsWhatIsDue | app/Madeira/DockInstallers.swift:612-646 | A start that is on, does not skip the game and can write puts the first eight due programs into its batch in the order found, and no other start writes one |
| InstallProtocol.DockInstalls.SetRunsNext | app/Madeira/DockInstallers.swift:580-583 | The choice of one game changes and nothing else |
| InstallProtocolLaws.InvAlways | app/Madeira/DockInstallers.swift:428-433 | In every run the ledger names the runs of the last batch in order, the batch has at most eight programs and the result file belongs to it |
| InstallProtocolLaws.ValueNeverFalls | app/Madeira/DockInstallers.swift:592-731 | No step of any run lowers a recorded value while the runs of the last batch have names and keys of one line |
| InstallProtocolLaws.RaisedOnlyByReports | app/Madeira/DockInstallers.swift:700-724 | A recorded value is raised only by a start that absorbs exit status 0, 3010 or 1641 reported at an index where the last batch held a program of such a run |
| InstallProtocolLaws.RecordedRunsStayOut | app/Madeira/DockInstallers.swift:616-625 | Once recorded, a run stays recorded and none of its programs enters a later batch of any game |
| InstallProtocolLaws.SuccessIsRecorded | app/Madeira/DockInstallers.swift:700-731 | One reported success records its run exactly when the registry file is there, the result file is short enough and the run's name does not hide its number, and keeps all programs of that run out |
| InstallProtocolLaws.SessionIsRecorded | app/Madeira/DockInstallers.swift:592-731 | Over a start, a session cut off anywhere behind a program's exit line, and the next start: the success is recorded exactly when the registry file is there and the name does not hide its number |
| InstallResultSizes.ResultFileSize | app/Madeira/DockInstallers.swift:358-382 | The result file of a batch is bounded by its programs, so eight of them always fit what the next start reads |
| InstallProtocolLaws.SkippedGamesRunNothing | app/Madeira/DockInstallers.swift:630-634 | A game set to Skip runs nothing, and only the user takes the choice back |
| InstallProtocolLaws.RunningTurnsToSkip | app/Madeira/DockInstallers.swift:630-646 | A start turns a game's choice to Skip exactly when it is to run everything pending; nothing has run then exactly when the batch could not be written |
| InstallProtocolLaws.SkippedUnrun | app/Madeira/DockInstallers.swift:630-646 | A first start that finds one program, cannot write its batch, and leaves the game skipped with the program not run |
| LogTable.LogStore.HandleLine | app/Madeira/LogStore.swift:174-193 | A known signature queues an update, a new one a row and a sentinel |
| LogTable.LogStore.DrainPending | app/Madeira/LogStore.swift:234-241 | The first locked section of a flush |
| LogTable.LogStore.CommitBatch | app/Madeira/LogStore.swift:243-301 | Updates applied, the batch collapsed, new rows appended and numbered, the oldest evicted |
| LogTable.LogStore.CollapseBatch | app/Madeira/LogStore.swift:252-273 | The loop over the new lines with its own index |
| LogTable.LogStore.ClearQueues | app/Madeira/LogStore.swift:306-310 | The locked half of a clear |
| LogTable.LogStore.ClearTable | app/Madeira/LogStore.swift:311-312 | The other half |
| LogTableLaws.TableStaysExact | app/Madeira/LogStore.swift:165-313 | In every interleaving signatures are distinct, each row's signature maps to its place, no other maps to one, and at most 200 rows remain |
| LogTableLaws.CountsNeverExceedLines | app/Madeira/LogStore.swift:165-313 | In every interleaving the counts never exceed the lines accepted |
| LogTableCounts.RowsTellTheirLines | app/Madeira/LogStore.swift:165-313 | At rest without an eviction since the last clear a row counts its first line and every line logged while the index held its place, and shows the last of them; every kind heard has its row |
| LogTableLaws.EvictionDropsOldest | app/Madeira/LogStore.swift:285-299 | An eviction keeps 200 rows, none with an earlier last line than a dropped one, in the order of their first lines |
| LogTableRuns.NoKindIsLost | app/Madeira/LogStore.swift:165-313 | Every signature accepted since the last clear has a row, waits for one or was evicted |
| LogTableRuns.CalmRunsNeverMeet | app/Madeira/LogStore.swift:262-268 | Without an eviction while lines wait, no new line meets a row of its own signature |
| LogTableRuns.LateLineMeets | app/Madeira/LogStore.swift:262-299 | After an eviction while a line waits, logging that line once more makes it meet its own row |
| LogTableRuns.LateLineHappens | app/Madeira/LogStore.swift:262-299 | A run from the empty table in which that happens |
| LogLines.LogTail.FlushLines | app/Madeira/LogTail.swift:117-130 | Whole lines leave the buffer in order, empty ones dropped, and an overlong partial line is given up |
| LogLines.LogTail.Read | app/Madeira/LogTail.swift:112-114 | One chunk appended and flushed |
| LogLines.StaysInSync | app/Madeira/LogTail.swift:117-130 | A chunk keeps the reader in step with the stream exactly when it does not end in a partial line of more than a megabyte |
| LogLines.ChunksDoNotMatter | app/Madeira/LogTail.swift:104-130 | Without overlong lines what is delivered depends on the bytes only |
| LogLines.LongLineMatters | app/Madeira/LogTail.swift:126-129 | Two ways in which the same overlong line arrives are read differently |
| HardwareKeys.HardwareKeyboard.SyncKeys | app/Madeira/HardwareInput.swift:941-945 | Ups, then downs, each in key order, of the difference between posted and wanted keys |
| HardwareKeys.HardwareKeyboard.EvaluateFocus | app/Madeira/HardwareInput.swift:812-817 | A change of focus, hiding everything held when it is lost |
| HardwareKeys.HardwareKeyboard.Key | app/Madeira/HardwareInput.swift:920-939 | A press or release of a mapped key, with the swallowed chord |
| HardwareKeys.HardwareKeyboard.DetachKeyboard | app/Madeira/HardwareInput.swift:911-918 | A disconnect forgets all keys and posts their ups |
| HardwareKeys.EdgesFoldToWanted | app/Madeira/HardwareInput.swift:237-402 | In every run the posted edges fold to the wanted keys, each key's edges alternate starting with a down, and without focus nothing is down and everything held is blocked |
| HardwareKeys.DownAreSeen | app/Madeira/HardwareInput.swift:805-945 | Over every run a key is down exactly when it is held since a press, the focus was on the program from that press on, and no press of the hold was taken as the chord |
| HardwareKeys.PostedAre | app/Madeira/HardwareInput.swift:805-945 | Over every run exactly the changes of what the program sees are posted, after each event the ups and then the downs in key order |
| HardwareKeys.PressGoesDown | app/Madeira/HardwareInput.swift:920-939 | A press of a key that was not held, with the focus and no chord, posts exactly its one down |
| HardwareKeys.DownsComeFromPresses | app/Madeira/HardwareInput.swift:805-945 | Every posted down comes from the press of that key with focus, and from no swallowed chord |
| HardwareMotion.MotionCarry.Add | app/Madeira/HardwareInput.swift:256-265 | Emission and carry make up carry and scaled input, within the clamp, and the carry is below 1 exactly unless the clamp held back |
| HardwareMotion.MotionIsConserved | app/Madeira/HardwareInput.swift:252-265 | Over any events emitted counts and carry add up to the scaled input |
| HardwareMotion.WheelAccumulator.Add | app/Madeira/HardwareInput.swift:285-296 | The four loops post exactly the notches of both axes in order, and leave the residues, or none after a full event |
| HardwareMotion.WheelIsConserved | app/Madeira/HardwareInput.swift:273-296 | Over any events of the accumulator, notches at their size, residue and what full events gave up make up the input of each axis; without a full event nothing is given up, and the residue is always less than a notch |
| HardwareMotion.FullEventDrops | app/Madeira/HardwareInput.swift:291-295 | What a full event gives up: everything sideways when the upright axis used up the notches, else less than a notch upright |
| TouchPointer.GestureView.ResetGesture | app/Madeira/ContentView.swift:315-325 | A reset clears the gesture and moves the generation on |
| TouchPointer.GestureView.Commit | app/Madeira/ContentView.swift:335-341 | The button goes down where the gesture began, once |
| TouchPointer.GestureView.TouchesBegan | app/Madeira/ContentView.swift:351-372 | Fingers join an unresolved gesture; one finger starts a hold timer |
| TouchPointer.GestureView.TimerFired | app/Madeira/ContentView.swift:363-367 | The guarded press of a hold timer |
| TouchPointer.GestureView.TouchesMoved | app/Madeira/ContentView.swift:374-410 | Two fingers scroll, one finger drags beyond the slop |
| TouchPointer.GestureView.TouchesEnded | app/Madeira/ContentView.swift:412-433 | A drag's lift releases the button; taps click by their peak of fingers |
| TouchPointer.GestureView.TouchesCancelled | app/Madeira/ContentView.swift:435-443 | A cancel releases the button or drops the gesture |
| TouchPointerLaws.ButtonFollowsDrag | app/Madeira/ContentView.swift:315-443 | In every run the left button is down exactly while a drag is resolved, its edges alternate, and it moves only while down |
| TouchPointerLaws.TimerPressesItsOwnGesture | app/Madeira/ContentView.swift:359-367 | A hold timer presses only in the gesture that started it, for its one finger; one of an earlier gesture does nothing |
| TouchPointerLaws.SeveralFingersPostNoLeft | app/Madeira/ContentView.swift:351-443 | A callback of an unresolved gesture of several fingers posts no left-button event |
| TouchPointerLaws.NoLeftUntilReset | app/Madeira/ContentView.swift:351-443 | Once a second finger has joined, no left-button event happens until the gesture ends |
| TouchGestures.TapsClick | app/Madeira/ContentView.swift:351-433 | One, two and three fingers that go down and up within the slop click left, right and the middle button at their middle, more click nothing |
| TouchGestures.TravelDrags | app/Madeira/ContentView.swift:374-433 | A finger that leaves the slop drags: down where it went down, moves along its path, up where it lifts |
| TouchGestures.HoldPresses | app/Madeira/ContentView.swift:351-433 | A finger that stays until its timer fires presses where it went down and releases where it lifts |
| TouchGestures.CancelledTapsClickNothing | app/Madeira/ContentView.swift:435-443 | Fingers that are cancelled click nothing, and the next gesture starts afresh |
| TouchGestures.CancelledDragReleases | app/Madeira/ContentView.swift:435-443 | A drag that is cancelled releases the button where its finger is |
| TouchPointerLaws.ScrollPostsSteps | app/Madeira/ContentView.swift:376-389 | A two-finger move posts wheel steps of 120 between the fingers and nothing else |
| TouchPointerLaws.ScrollsAreNoTaps | app/Madeira/ContentView.swift:381-382 | A run of two-finger moves is no tap any more exactly when one of its counted steps is of more than 2 points |
| TouchPointerLaws.BrokenClicksNothing | app/Madeira/ContentView.swift:420-423 | A gesture that left the slop clicks nothing |
| TouchPointerLaws.TravelIsConserved | app/Madeira/ContentView.swift:376-389 | Over a run of two-finger moves the wheel steps of 14 points and the rest, less than a step, make up the travel from the first middle to the last but for the steps that start at height 0 |
| TouchPointerLaws.NoStepIsLost | app/Madeira/ContentView.swift:376-389 | Every move of such a run is counted whole exactly when no step leaves height 0 |
| TouchPointerLaws.ZeroHeightLosesTravel | app/Madeira/ContentView.swift:380 | Three concrete moves of which the last one's 100 points are lost |
| PrefixArchive.ReadOctal | app/Madeira/PrefixExtractor.c:18-26 | The octal field loop, with what does not fit an int told apart |
| PrefixArchive.CopyData | app/Madeira/PrefixExtractor.c:111-130 | The copy loop reads whole blocks and yields exactly the bytes of the size |
| PrefixArchive.SkipData | app/Madeira/PrefixExtractor.c:135-142 | The skip loop takes exactly the blocks of the size |
| PrefixArchive.ExtractPrefix | app/Madeira/PrefixExtractor.c:60-158 | The block loop |
| PrefixArchiveLaws.ItemReads | app/Madeira/PrefixExtractor.c:60-153 | The next item of an archive is taken up whole, in one header block and the blocks of its size |
| PrefixArchiveLaws.ExtractionUndoesWriting | app/Madeira/PrefixExtractor.c:46-158 | From any ustar archive without file-folder conflicts the tree holds each file's last bytes under its stripped path, each folder and nothing else; no int overflows; reading stops at the first zero block |
| PrefixArchiveLaws.WriterWritesArchives | app/Madeira/PrefixExtractor.c:81-84 | A writer that lays out ustar headers writes archives |
| LaunchRecord.Record.ReachStage | app/Madeira/LaunchDiagnostics.c:182-196 | The first time counts; a later detail only fills an empty one |
| LaunchRecord.Record.ReportProblem | app/Madeira/LaunchDiagnostics.c:218-243 | A known problem counts up, a new one enters the table while there is room, else it counts as dropped |
| LaunchRecord.Record.NotePresents | app/Madeira/LaunchDiagnostics.c:685-699 | The first presented frame reaches its stage |
| LaunchRecord.Record.ProcessExit | app/Madeira/LaunchDiagnostics.c:705-726 | Only the first exit counts, and it is a problem after a crash or before any frame or child |
| LaunchRecord.Record.Verdict | app/Madeira/LaunchDiagnostics.c:730-741 | No problem exactly when a frame was presented; else the category of the table that comes first, or the exit's default |
| LaunchRecordLaws.TableStaysDistinct | app/Madeira/LaunchDiagnostics.c:218-243 | After any events the table holds at most 24 records with pairwise distinct category and key |
| LaunchRecordLaws.CountsAreReports | app/Madeira/LaunchDiagnostics.c:218-243 | Counts and dropped reports together are the number of reports up to turns of the 32-bit counters |
| LaunchRecordLaws.EveryReportCounts | app/Madeira/LaunchDiagnostics.c:218-243 | With fewer than 2^32 reports every report is counted exactly once |
| LaunchRecordLaws.RecordsCountTheirReports | app/Madeira/LaunchDiagnostics.c:218-243 | After any events each record counts exactly the reports of its own category and key and shows the first of them; the others are the dropped ones, and only a full table drops |
| LaunchRecordLaws.StagesAreReached | app/Madeira/LaunchDiagnostics.c:182-196 | A stage is reached exactly when an event reached it, with the time of the first that did |
| LaunchRecordLaws.FirstTimeCounts | app/Madeira/LaunchDiagnostics.c:182-196 | A reached stage stays reached with its first time |
| LaunchRecordLaws.VerdictIsHighest | app/Madeira/LaunchDiagnostics.c:730-741 | The verdict is determined by the record: the highest category of its table |
| LaunchReport.Output.Put | app/Madeira/LaunchDiagnostics.c:762-775 | A put appends what fits, keeps a NUL behind it and the length of what was written |
| LaunchReport.PutAll | app/Madeira/LaunchDiagnostics.c:762-775 | Any sequence of puts leaves the concatenation cut to one byte less than the capacity |
| LaunchReport.PutJsonString | app/Madeira/LaunchDiagnostics.c:844-854 | The literal of a string, byte by byte, within the capacity |
| LaunchReport.JsonReadsBack | app/Madeira/LaunchDiagnostics.c:844-854 | The literal of any bytes is a string of section 7 of RFC 8259 that decodes to exactly them |
| ConfigFile.Config.All | app/Madeira/MadeiraConfig.swift:37-49 | All settings, the last line for a key wins |
| ConfigFile.Config.Set | app/Madeira/MadeiraConfig.swift:72-86 | The key's lines go, the new one is appended |
| ConfigFile.SetKeepsOtherLines | app/Madeira/MadeiraConfig.swift:72-86 | Comments and all other lines stay in order, each without a final carriage return, then the new line |
| ConfigFile.ReadAfterSet | app/Madeira/MadeiraConfig.swift:37-86 | Reading after setting gives the old map with just that key changed, exactly when no other key's last line and not the new value ends in a carriage return |
| ConfigFile.ReturnIsLost | app/Madeira/MadeiraConfig.swift:72-86 | A concrete text in which setting one key changes the value of another |
| PathSpelling.SafeRelativePath | app/Madeira/SteamInstall.swift:76-93 | An accepted path is folded along the shared map, a refused one leaves it |
| PathSpelling.AcceptedPaths | app/Madeira/SteamInstall.swift:76-80 | A path of parts, with either slash, is accepted exactly when it has 1 to 64 parts, fewer than 1024 bytes and no part that climbs, names a drive or holds a control character |
| PathSpelling.AcceptedPathIsFolded | app/Madeira/SteamInstall.swift:76-93 | A result has as many parts as the path, folds to the folded path, leaves the folder nowhere, and its directories are spelled as in the map, which keeps its entries and stays closed |
| PathSpelling.DirectoriesAgree | app/Madeira/SteamInstall.swift:76-93 | Any two accepted paths whose first directories are equal up to case come out with those spelled the same |

## Left out

- Case folding and trimming beyond ASCII, and Unicode normalisation of text.
- Matching a program to profiles, rules, remedies and the components its imports name: a plan's inputs are the matches. Notes, titles, launch arguments and file operations of a plan would only add easy members.
- Reading and writing files: texts and streams are values, a file that is not there yet is an empty text, and saving the ledger and registry succeeds. The backup copies are not modelled.
- What cmd.exe does with a batch line is taken as InstallShell has it: remarks, echoes with their redirections and %ERRORLEVEL%, the one condition, and programs; anything else of cmd.exe is not modelled.
- InstallProtocolLaws.ValueNeverFalls: goes one way for names and keys of one line; InstallMarkLaws.BrokenNameHidesValues shows a value that a broken name hides. The programs' own writes to the registry during a session are not steps of the model.
- LaunchRuns.OverridesAfter: between two launches nothing else sets these variables in the model; the options file that the app copies into DXMT_CONFIG later is not part of it, nor are order entries that hold "=" or ";" in a name or an order.
- Finding install scripts on disk, the programs of an entry and their arguments (app/Madeira/DockInstallers.swift:241-273), and the progress text.
- LogTableCounts.RowsTellTheirLines: is for runs without an eviction since the last clear; an index read between the two locked sections of a flush may be stale after one, and then only the sum of the counts is bounded.
- LogTableRuns.CalmRunsNeverMeet: gives the condition over whole runs; its other half, LogTableRuns.LateLineMeets, is for one waiting line that is not older than the rows.
- Bytes that are no UTF-8 in log lines and scripts, and what the tail reader drops while its display is paused.
- Mouse buttons, hover, pointer lock and the desktop trackpad mode; switching the touch mode in the middle of a gesture; the mapping of view points to the guest's screen.
- Non-finite motion values, which are ignored on entry, and rounding of doubles.
- Recognising log lines of the launch record by their text; stage names, hints and the layout of the text report.
- Destination folders so long that a path is cut off in its buffer, an archive entry without a name and of type 0 (which reads before its name), paths with ".." and what an aborted extraction leaves behind.
- Legacy files of the configuration and their migration.
- Views, downloads, sign-in, just-in-time memory and everything that talks to the system only.
