# Python dictionaries and tuples guides — verified model

The repository is a set of tutorial scripts that print demonstrations of
Python's `dict` and `tuple`. This project models the few pieces in them that
hold real logic, and proves what they promise:

- the nested-dictionary helpers of the dictionary guide: the recursive
  configuration merge `merge_config`, the path lookup `safe_get`, the
  low-stock report `get_low_stock_items`, keyword defaults in `create_user`,
  and the two `defaultdict` loops (grouping words by first letter, counting
  words) — `nested_dicts.dfy`, `word_groups.dfy`;
- the interactive menu of the dictionary guide: a fixed, ordered registry of
  fourteen entries; a loop that trims and upper-cases the choice, selects the
  first entry whose key matches, then quits, runs the entry through
  `run_example` (which reports an exception instead of letting it escape) or
  reports an invalid choice; and `run_all_sections`, which runs the eleven
  sections in order with a pause between them — `dict_menu.dfy`;
- the interactive loop of the tuples guide: the choice, after
  `strip().lower()`, is `quit`/`exit`, `all`, a section number, `toc` or
  invalid; section 1 and section 4 bring extra demonstrations —
  `tuple_menu.dfy`;
- `analyze_numbers`, returning `(min, max, sum, count)` or `(0, 0, 0, 0)` for
  no numbers — `tuple_analysis.dfy`;
- the dict comprehensions of the comprehension walkthrough: random scores
  per name, word lengths, the students scoring 90 or more, and pass/fail —
  `comprehensions.dfy`.

Support modules: `common.dfy` (`Option`, `Result`, ranges), `text.dfy` (the
`str` built-ins the scripts apply: `strip`, `upper`, `lower`, `isdigit`,
`int`, `split()` and `split(" ")`, with `join` as the inverse of `split`),
and `ordered_dict.dfy` (a Python dict as an insertion-ordered list of pairs,
and a comprehension as a run of assignments, so that source order and the
"last value wins" rule for a repeated key can be stated).

A Python value in the nested helpers is the tagged `NestedDicts.Value`
(`Str`, `Int`, `Real`, `Bool`, `NoneValue`, `Dict(map<string, Value>)`), so
"is a dict" is decidable. Operator input is a sequence of lines: every
`input()` — the menu prompt, the "return to menu" prompt and every pause —
consumes one line, and reading past the last one raises `EOFError`. Output is
a trace of events. A demonstration section is an opaque id; the parameter
`failing` says which of them raise when run. The random source of
`random.randint` is an arbitrary natural number `draw` supplied per name.

The loops and the in-place updates of the source (`merge_config`'s
assignment loop, `safe_get`'s walk, the nested loops of
`get_low_stock_items`, the two `defaultdict` loops, both `while True` menus,
the counted loops of "run all", the registry search) are methods with loop
invariants, each proved equal to a specification function; the properties
are proved as lemmas about those functions. The tuples guide's menu methods
follow the corrected turn `TupleMenu.Step`, where running out of input ends
the session (see "## Findings"); the loop as the source writes it, which
never ends once input runs out, is the function pair
`TupleMenu.StepAsWritten` / `TupleMenu.SessionAsWritten`, and
`TupleMenu.StepAgrees` and `TupleMenu.SessionAgrees` prove the two agree
wherever the end of input is not met.

## Model

| member | source | states |
|---|---|---|
| `NestedDicts.Merged` | CommandLine/python_dictionary_complete_guide.py:558-566 | The merged keys are the union of both key sets; wherever the two values are not both dicts the user's value wins; keys only in `default` keep the default; where both are dicts the result is a dict over the union of the nested keys |
| `NestedDicts.MergeConfig` | CommandLine/python_dictionary_complete_guide.py:558-566 | The copy-then-assign loop, recursing where both values are dicts, returns exactly the deep merge; its inputs are values and are left unchanged |
| `NestedDicts.MergeKeepsUserLeaf` | CommandLine/python_dictionary_complete_guide.py:561-565 | Along any path where the user's configuration reaches a non-dict value, the merge reaches that same value |
| `NestedDicts.MergeKeepsDefault` | CommandLine/python_dictionary_complete_guide.py:562-563 | Along any path that leaves the user's configuration, the merge reaches what the default reaches: nested default-only keys survive |
| `NestedDicts.MergeSelf` | CommandLine/python_dictionary_complete_guide.py:558-566 | Merging a configuration into itself gives it back |
| `NestedDicts.ConfigDatabaseUser` | CommandLine/python_dictionary_complete_guide.py:532-568 | In the guide's merge, `database.host` is `prod-server.com` and `database.port` is 5433 |
| `NestedDicts.ConfigDatabaseName` | CommandLine/python_dictionary_complete_guide.py:532-568 | In the guide's merge, `database.name` keeps its default `myapp` |
| `NestedDicts.ConfigLogging` | CommandLine/python_dictionary_complete_guide.py:532-568 | In the guide's merge, `logging.level` is `DEBUG` and `logging.file` keeps `app.log` |
| `NestedDicts.ConfigCache` | CommandLine/python_dictionary_complete_guide.py:532-568 | The `cache` section, absent from the user's configuration, is kept whole |
| `NestedDicts.Follow` | CommandLine/python_dictionary_complete_guide.py:506-512 | A path whose first key is missing, or whose current value is not a dict, breaks |
| `NestedDicts.FollowAppend` | CommandLine/python_dictionary_complete_guide.py:507-511 | Following a path in two legs is following the first, then the second from where it ends; a break in the first leg is final |
| `NestedDicts.SafeGet` | CommandLine/python_dictionary_complete_guide.py:506-512 | The walk returns the value reached when every key is found in a dict, `default` as soon as the path breaks, and `d` itself for no keys |
| `NestedDicts.CompanyPaths` | CommandLine/python_dictionary_complete_guide.py:475-516 | Alice's salary path reaches 95000; the path through the missing `finance` department breaks |
| `NestedDicts.SafeGetExample` | CommandLine/python_dictionary_complete_guide.py:515-516 | The guide's two calls return 95000 and `"N/A"` |
| `NestedDicts.ItemKey` | CommandLine/python_dictionary_complete_guide.py:630 | The report key is the category, a `/`, then the item |
| `NestedDicts.LowStockItems` | CommandLine/python_dictionary_complete_guide.py:624-631 | Succeeds exactly when every category is a dict of dict items with a numeric `stock`; an error names a place where the walk really fails; every reported entry is the stock of an item below the threshold under that item's key; every such item is reported; with no `/` in category names, each with exactly its stock |
| `NestedDicts.ItemKeyInjective` | CommandLine/python_dictionary_complete_guide.py:630 | With no `/` in category names, different items get different report keys |
| `NestedDicts.SoundExact` | CommandLine/python_dictionary_complete_guide.py:624-631 | In a sound report, with no `/` in category names, a low item's key holds exactly its stock |
| `NestedDicts.InventoryLowItems` | CommandLine/python_dictionary_complete_guide.py:613-631 | In the guide's inventory, exactly the laptop and the data-science book are below the default threshold 10 |
| `NestedDicts.LowStockExample` | CommandLine/python_dictionary_complete_guide.py:613-641 | The guide's report is `{"electronics/laptop": 5, "books/data_science": 8}` |
| `NestedDicts.CreateUser` | CommandLine/python_dictionary_complete_guide.py:437-440 | The user has every default key and every keyword; a keyword wins over a default, a default fills in otherwise |
| `NestedDicts.CreateUserIsMerge` | CommandLine/python_dictionary_complete_guide.py:437-440 | With no dict among the defaults, the shallow unpacking merge agrees with the deep merge |
| `NestedDicts.CreateUserAlice` | CommandLine/python_dictionary_complete_guide.py:442 | Alice gets `active = True` and `role = "user"` from the defaults |
| `NestedDicts.CreateUserBob` | CommandLine/python_dictionary_complete_guide.py:443 | Bob's `role` and `active` override both defaults |
| `WordGroups.StartingWithMembers` | CommandLine/python_dictionary_complete_guide.py:456-457 | A group holds exactly the input words starting with its letter |
| `WordGroups.GroupByFirstLetter` | CommandLine/python_dictionary_complete_guide.py:454-457 | The loop fails exactly when some word is empty (`word[0]` raises), at the first such word; otherwise each letter that starts a word maps to the words starting with it, in input order, and no other letter appears |
| `WordGroups.GroupKeepsCount` | CommandLine/python_dictionary_complete_guide.py:456-457 | Grouping loses and duplicates nothing: a word occurs in its letter's group as often as in the input, and in no other group |
| `WordGroups.FruitExample` | CommandLine/python_dictionary_complete_guide.py:453-459 | The guide's fruits group as `a: apple, apricot`, `b: banana, blueberry`, `c: cherry` |
| `WordGroups.OccurrencesPositive` | CommandLine/python_dictionary_complete_guide.py:465-466 | A word's count is positive exactly when the word occurs |
| `WordGroups.OccurrencesMultiset` | CommandLine/python_dictionary_complete_guide.py:465-466 | The count is the word's multiplicity in the multiset of the words |
| `WordGroups.WordCount` | CommandLine/python_dictionary_complete_guide.py:462-466 | The counts map exactly the words of `text.split()` to their numbers of occurrences |
| `WordGroups.SampleTextWords` | CommandLine/python_dictionary_complete_guide.py:462-465 | `split()` of the guide's text gives its five words |
| `WordGroups.WordCountExample` | CommandLine/python_dictionary_complete_guide.py:462-468 | The guide's count is `hello: 2, world: 2, python: 1` |
| `Text.SplitWordsJoin` | CommandLine/python_dictionary_complete_guide.py:465 | `split()` of non-empty, blank-free words joined by single spaces gives the words back |
| `Text.StripSpec` | CommandLine/python_dictionary_complete_guide.py:837 | `strip()` leaves no whitespace at either end, and leaves nothing exactly when the line is all whitespace |
| `DictionaryMenu.FirstMatchSpec` | CommandLine/python_dictionary_complete_guide.py:840-844 | The selected entry's upper-cased key equals the choice and no earlier one does; with no selection, no entry matches |
| `DictionaryMenu.FirstMatchUnique` | CommandLine/python_dictionary_complete_guide.py:840-844 | The first match is the only answer meeting that description |
| `DictionaryMenu.FindSelected` | CommandLine/python_dictionary_complete_guide.py:839-844 | The search loop with `break` returns the first matching entry, or none |
| `DictionaryMenu.RunAllSections` | CommandLine/python_dictionary_complete_guide.py:800-825 | The counted loop produces the banner, then each section's announcement and `run_example` outcome, a pause after every section but the last, stopping when a pause meets the end of input |
| `DictionaryMenu.RunAllOrder` | CommandLine/python_dictionary_complete_guide.py:820-825 | The sections run in listed order, each once, one line read per pause; the run completes exactly when there are enough lines, and otherwise stops at the section whose pause finds none |
| `DictionaryMenu.RunAllComplete` | CommandLine/python_dictionary_complete_guide.py:800-825 | With ten lines for the pauses, "All Sections" runs sections 1 to 11 once each, in order, and completes without error |
| `DictionaryMenu.RunAllNotFinal` | CommandLine/python_dictionary_complete_guide.py:820-825 | Running all sections never ends the session |
| `DictionaryMenu.RunExample` | CommandLine/python_dictionary_complete_guide.py:26-31 | Running an entry's action gives the events and leaves the input that its specification gives; an exception becomes a report, never an exit |
| `DictionaryMenu.PerformNotFinal` | CommandLine/python_dictionary_complete_guide.py:26-31 | No action's events end the session |
| `DictionaryMenu.Loop` | CommandLine/python_dictionary_complete_guide.py:835-865 | Every turn begins by showing the menu; a session is never shorter than the menu and one more event, and its last event is the farewell or the end of input (nowhere earlier, by `SessionEnds`) |
| `DictionaryMenu.Selected` | CommandLine/python_dictionary_complete_guide.py:850-865 | The rest of a turn after a selection also ends with the farewell or the end of input; it is the farewell alone exactly when the `Q` entry was selected |
| `DictionaryMenu.AfterRun` | CommandLine/python_dictionary_complete_guide.py:861-865 | After an action, the session goes back to the menu exactly when a line is left and it is not `q`; otherwise it ends with the farewell or the end of input |
| `DictionaryMenu.MenuLoop` | CommandLine/python_dictionary_complete_guide.py:835-865 | The `while True` loop produces exactly the trace of the loop's specification |
| `DictionaryMenu.RunGuide` | CommandLine/python_dictionary_complete_guide.py:827-865 | `main` shows the table of contents, then runs the loop over the guide's registry |
| `DictionaryMenu.LoopSelects` | CommandLine/python_dictionary_complete_guide.py:837-850 | A line that selects an entry shows the menu and continues with that entry |
| `DictionaryMenu.LoopNoMatch` | CommandLine/python_dictionary_complete_guide.py:846-848 | A line that selects nothing is reported, runs nothing, and the loop reads the next line |
| `DictionaryMenu.LoopQuit` | CommandLine/python_dictionary_complete_guide.py:852-855 | Selecting the `Q` entry ends the session with the farewell |
| `DictionaryMenu.LoopSection` | CommandLine/python_dictionary_complete_guide.py:857-865 | Selecting a section runs it once through `run_example`, and any answer but `q` to the return prompt goes back to the loop with the remaining input |
| `DictionaryMenu.LoopSectionQuit` | CommandLine/python_dictionary_complete_guide.py:857-865 | Selecting a section and answering `q` to the return prompt runs it once and ends with the farewell |
| `DictionaryMenu.MenuKeys` | CommandLine/python_dictionary_complete_guide.py:771-798 | The registry has fourteen entries whose keys are digits and capitals, no two alike |
| `DictionaryMenu.SelectByKey` | CommandLine/python_dictionary_complete_guide.py:840-844 | Typing an entry's key selects that entry |
| `DictionaryMenu.SelectIgnoresCase` | CommandLine/python_dictionary_complete_guide.py:837-844 | A key typed in lower case with blanks around it still selects its entry |
| `DictionaryMenu.SelectTyped` | CommandLine/python_dictionary_complete_guide.py:837-844 | A key typed as listed selects its entry |
| `DictionaryMenu.SectionAction` | CommandLine/python_dictionary_complete_guide.py:771-798 | Typing the key of section `n` selects an entry that runs section `n` and is not `Q` |
| `DictionaryMenu.SectionEntry` | CommandLine/python_dictionary_complete_guide.py:771-825 | Section `n`'s menu entry has the title `run_all_sections` lists for it and runs section `n` |
| `DictionaryMenu.QuitEnds` | CommandLine/python_dictionary_complete_guide.py:837-855 | `q` or `Q`, with any blanks, ends the session with the farewell and reads nothing more |
| `DictionaryMenu.InvalidRunsNothing` | CommandLine/python_dictionary_complete_guide.py:846-848 | A choice matching no key is reported, runs nothing, and the loop goes on |
| `DictionaryMenu.NoSectionTwelve` | CommandLine/python_dictionary_complete_guide.py:771-798 | `12` selects no entry: the registry lists only eleven sections, so that choice takes the invalid-choice branch |
| `DictionaryMenu.ChooseSection` | CommandLine/python_dictionary_complete_guide.py:857-865 | Typing section `n`'s key runs that section once; whether it raises or not, the loop then continues from the remaining input |
| `DictionaryMenu.SmallMenuSession` | CommandLine/python_dictionary_complete_guide.py:835-865 | Over a registry of two sections and a quit entry, the lines `9`, `1`, `q` give: invalid choice, section 1 once, farewell |
| `DictionaryMenu.SessionEnds` | CommandLine/python_dictionary_complete_guide.py:835-865 | Every session ends with the farewell or the end of input, and neither occurs earlier: quitting and running out of input are the only ways out |
| `DictionaryMenu.SelectedEnds` | CommandLine/python_dictionary_complete_guide.py:850-865 | The rest of a turn also ends only with the farewell or the end of input |
| `DictionaryMenu.AfterRunEnds` | CommandLine/python_dictionary_complete_guide.py:861-865 | So does what follows the return prompt |
| `DictionaryMenu.RunAllIsolated` | CommandLine/python_dictionary_complete_guide.py:820-825 | Which sections raise changes only their reports, not what "run all" reads or whether it completes |
| `DictionaryMenu.PerformIsolated` | CommandLine/python_dictionary_complete_guide.py:26-31 | Whether an action raises changes only its report and never the input it leaves |
| `DictionaryMenu.LoopIsolated` | CommandLine/python_dictionary_complete_guide.py:835-865 | Which actions raise changes only the error reports: the session runs the same actions in the same order and ends in the same way |
| `TupleMenu.ParsePadded` | Tuples/CommandLine/python_tuples_complete_guide.py:689 | Blanks around a choice do not change the command it selects |
| `TupleMenu.ParseIgnoresCase` | Tuples/CommandLine/python_tuples_complete_guide.py:689 | An upper-cased choice selects the same command |
| `TupleMenu.Classify` | Tuples/CommandLine/python_tuples_complete_guide.py:691-720 | The branches of the `if`/`elif` chain never overlap: `quit`/`exit`, `all` and `toc` select their commands exactly, and a choice is a section number exactly when it is all digits, the number being its decimal value; `Parse` applies it after `strip().lower()` (line 689) |
| `TupleMenu.ParseLeadingZero` | Tuples/CommandLine/python_tuples_complete_guide.py:701-702 | A leading zero does not change the section number read |
| `TupleMenu.DigitsPlain` | Tuples/CommandLine/python_tuples_complete_guide.py:689-701 | A digit string is unchanged by `strip().lower()` and is no keyword, so it reaches the number branch |
| `TupleMenu.StepAsWritten` | Tuples/CommandLine/python_tuples_complete_guide.py:687-727 | One turn as written: it ends the loop exactly for `quit`/`exit`, or for `all` when every pause finds a line; it says goodbye exactly for `quit`/`exit`; it never ends on the end of input, which the `except Exception` handler reports; a turn that goes on reads one line or, having met the end of input, leaves none |
| `TupleMenu.SessionAsWritten` | Tuples/CommandLine/python_tuples_complete_guide.py:687-727 | The loop as written, for a bounded number of turns: running out of input never ends it, and a farewell is always its last event; `AsWrittenNeverEnds` shows it repeating the error report forever on empty input |
| `TupleMenu.SessionAgrees` | Tuples/CommandLine/python_tuples_complete_guide.py:687-727 | On any session that never meets the end of input, the loop as written, given one turn more than there are lines, produces exactly the corrected session's trace |
| `TupleMenu.Step` | Tuples/CommandLine/python_tuples_complete_guide.py:687-727 | Corrected turn: a turn never reads more than the input holds, and a turn that does not end the loop consumes at least one line, so the corrected loop always ends |
| `TupleMenu.Iteration` | Tuples/CommandLine/python_tuples_complete_guide.py:688-720 | The body of the loop, with the correction, gives exactly the events, leftover input and stop decision of one corrected turn (`Step`); away from the end of input this is the source's turn (`StepAgrees`) |
| `TupleMenu.RunAll` | Tuples/CommandLine/python_tuples_complete_guide.py:696-699 | The loop over sorted section numbers runs each through `run_example` with a pause after all but the highest, stopping when a pause meets the end of input |
| `TupleMenu.TupleLoop` | Tuples/CommandLine/python_tuples_complete_guide.py:687-727 | The `while True` loop, with the correction, produces exactly the corrected session's trace (`Session`); on input that never runs out this is the source's trace (`SessionAgrees`) |
| `TupleMenu.RunGuide` | Tuples/CommandLine/python_tuples_complete_guide.py:685-727 | `main` shows the table of contents, then runs the corrected loop |
| `TupleMenu.SessionQuit` | Tuples/CommandLine/python_tuples_complete_guide.py:691-693 | `quit` or `exit` ends the session with the farewell |
| `TupleMenu.SessionNumber` | Tuples/CommandLine/python_tuples_complete_guide.py:701-714 | A number from 1 to 12 runs that section, then section 1's or section 4's extra demos, announces completion, and the loop goes on |
| `TupleMenu.SectionRunDemos` | Tuples/CommandLine/python_tuples_complete_guide.py:703-711 | Section 1 also runs the properties and indexing demos, section 4 the advanced unpacking demo, others nothing more |
| `TupleMenu.SessionOutOfRange` | Tuples/CommandLine/python_tuples_complete_guide.py:715-716 | A number outside 1 to 12, such as 0, is reported as an invalid section and the loop goes on |
| `TupleMenu.SessionToc` | Tuples/CommandLine/python_tuples_complete_guide.py:717-718 | `toc` shows the contents again and the loop goes on |
| `TupleMenu.SessionInvalid` | Tuples/CommandLine/python_tuples_complete_guide.py:719-720 | Any other line, the empty one included, is reported as an invalid choice and the loop goes on |
| `TupleMenu.StepFarewell` | Tuples/CommandLine/python_tuples_complete_guide.py:689-720 | A turn says goodbye exactly when its line normalises to `quit` or `exit` |
| `TupleMenu.AllOrder` | Tuples/CommandLine/python_tuples_complete_guide.py:694-700 | `all` runs the sections in ascending order, each once, one line per pause; it completes exactly when there are enough lines |
| `TupleMenu.SessionAll` | Tuples/CommandLine/python_tuples_complete_guide.py:694-700 | Corrected session: `all` runs sections 1 to 12 once each in ascending order and then leaves the loop, ending with section 12, or with the end of input if a pause met it (as written, that pause's error is reported and the loop goes on: `AllAsWrittenNeverEnds`) |
| `TupleMenu.AllIsolated` | Tuples/CommandLine/python_tuples_complete_guide.py:696-699 | Which sections raise changes only their reports during `all` |
| `TupleMenu.StepIsolated` | Tuples/CommandLine/python_tuples_complete_guide.py:26-31 | Which demos raise changes only their reports, never what a turn reads or whether the loop ends |
| `TupleMenu.FailuresIsolated` | Tuples/CommandLine/python_tuples_complete_guide.py:26-31 | Over a whole session, which demos raise changes only the error reports |
| `TupleMenu.AsWrittenNeverEnds` | Tuples/CommandLine/python_tuples_complete_guide.py:725-727 | As written, with no input left every turn reports the `EOFError` and the loop never ends |
| `TupleMenu.AllAsWrittenNeverEnds` | Tuples/CommandLine/python_tuples_complete_guide.py:694-727 | As written, an `all` whose pauses meet the end of input falls into that same endless turn |
| `TupleMenu.SessionNoInput` | Tuples/CommandLine/python_tuples_complete_guide.py:689 | With the correction, running out of input ends the session at once |
| `TupleMenu.StepAgrees` | Tuples/CommandLine/python_tuples_complete_guide.py:687-727 | The correction changes no turn that does not meet the end of input |
| `TupleAnalysis.Min` | Tuples/CommandLine/python_tuples_complete_guide.py:594 | `min` is an element of the list that no element is below |
| `TupleAnalysis.Max` | Tuples/CommandLine/python_tuples_complete_guide.py:594 | `max` is an element of the list that no element is above |
| `TupleAnalysis.AnalyzeNumbers` | Tuples/CommandLine/python_tuples_complete_guide.py:591-594 | `(0, 0, 0, 0)` for no numbers; otherwise the first two results are elements bounding every number from below and above, and the last is the count |
| `TupleAnalysis.AnalysisBounds` | Tuples/CommandLine/python_tuples_complete_guide.py:591-598 | min ≤ max, and the total lies between count × min and count × max, so the printed average lies between them |
| `TupleAnalysis.SumPermutation` | Tuples/CommandLine/python_tuples_complete_guide.py:594 | The total does not depend on the order of the numbers |
| `TupleAnalysis.AnalysisPermutation` | Tuples/CommandLine/python_tuples_complete_guide.py:591-594 | None of the four results depends on the order of the numbers |
| `TupleAnalysis.AnalysisExample` | Tuples/CommandLine/python_tuples_complete_guide.py:596-597 | `[10, 5, 8, 3, 15, 12]` gives `(3, 15, 53, 6)` |
| `Comprehensions.RandInt` | dictionarycomprehension.py:29 | `randint(75, 100)` lies in 75..100 inclusive, whatever the draw |
| `Comprehensions.RandIntCovers` | dictionarycomprehension.py:29 | Every score in the range is a possible draw |
| `Comprehensions.ScoreDict` | dictionarycomprehension.py:28-29 | The keys are exactly the names, no key twice, and every score lies in 75..100 |
| `Comprehensions.ScoreDictDistinctNames` | dictionarycomprehension.py:28-29 | With distinct names every name keeps its own draw, in name order |
| `Comprehensions.NamesDistinct` | dictionarycomprehension.py:28 | The ten names are distinct |
| `Comprehensions.WordLengths` | dictionarycomprehension.py:48 | The keys are exactly the pieces of `split(" ")`, no key twice, each mapped to its length |
| `Comprehensions.WordLengthsOfWords` | dictionarycomprehension.py:48 | For distinct words joined by single spaces, the table is each word with its length, in sentence order |
| `Comprehensions.WordLengthsExample` | dictionarycomprehension.py:47-54 | The sentence gives `Do: 2, you: 3, want: 4, to: 2, learn: 5, python?: 7` |
| `Text.SplitJoin` | dictionarycomprehension.py:48 | `split(sep)` of pieces joined by `sep` gives the pieces back |
| `OrderedDict.FromPairsLast` | dictionarycomprehension.py:48 | In a comprehension, the value kept for a key is the last one produced for it |
| `OrderedDict.FromDistinctPairs` | dictionarycomprehension.py:48 | A comprehension over pairs with distinct keys keeps them all, in order |
| `Comprehensions.AtLeastPassMarkMembers` | dictionarycomprehension.py:107 | The filter keeps exactly the items scoring at least 90 |
| `Comprehensions.AStudents` | dictionarycomprehension.py:107 | For any sheet, the result is a dict (no key twice) whose every entry is an entry of the sheet scoring at least 90, and every name with such a score is among its keys |
| `Comprehensions.AStudentsExact` | dictionarycomprehension.py:107 | The A students are exactly the entries scoring at least 90, scores unchanged, in source order |
| `Comprehensions.AStudentsExample` | dictionarycomprehension.py:106-114 | The result is `James: 92, Ace: 100, Mike: 90, Jane: 92`; Mike, at exactly 90, is included |
| `Comprehensions.PassFailed` | dictionarycomprehension.py:125 | For any sheet, the result is a dict over exactly the sheet's names, each entry a name with the verdict of one of its scores |
| `Comprehensions.PassFailedExact` | dictionarycomprehension.py:125 | Same keys in the same order; each value is `Pass` when the score is at least 90, `Failed` otherwise |
| `Comprehensions.PassIffAStudent` | dictionarycomprehension.py:107-125 | A name passes exactly when it is among the A students |
| `Comprehensions.ClassifySheet` | dictionarycomprehension.py:125 | The sample marks classify as Failed ×3, Pass, Failed, Pass ×3, Failed ×2, whatever the names |
| `Comprehensions.PassFailedExample` | dictionarycomprehension.py:125-132 | The sample score sheet gives the classification printed beside it |

## Left out

- Printing: headers, menu and table-of-contents text, the quick-reference and pitfalls tables. Output is a trace of abstract events.
- Console I/O: `input()` and `pause_for_user` are modelled only as consuming one line of a given input sequence.
- The bodies of the demonstration sections are opaque; which of them raise is the parameter `failing`.
- `KeyboardInterrupt` handling in the tuples guide: a process signal, not logic.
- Float computations (Fahrenheit conversion, discounts, GPA, inventory value, distances, averages, `bids` max), timing and `sys.getsizeof` in `tuple_vs_list`, `re.findall`, and `random.randint` generation itself; only the range of a drawn score is kept.
- Demonstrations of built-ins with no logic of the repository's own (`pop`, `popitem`, `setdefault`, `update`, `copy`, slicing, `namedtuple`, `count`/`index`), and the files `dictionaries.py`, `items_method.py`, `processing_patterns.py` and `add.py`.
- Key order of nested dicts: `NestedDicts` uses maps, so the order in which `merge_config` and `get_low_stock_items` visit keys is not modelled.
- NestedDicts.LowStockItems: when several places in the inventory would raise, Python reports the first in iteration order; the model promises only that the reported error is one of them.
- NestedDicts.LowStockItems: states each reported key's exact stock only when no category name contains `/`; otherwise two items can share a report key and the later assignment wins, which the model states only as "some low item's stock".
- NestedDicts.MergeConfig: Python's result shares nested dicts and user values with its inputs by reference (`copy()` is shallow); the model works on immutable values, so aliasing is not captured.
- `NestedDicts.Value` has no list or tuple variant; the nested helpers' data hold none.
- `Text.Upper`, `Text.Lower` and `Text.IsDigits` cover ASCII only. Python's `isdigit()` also accepts other Unicode characters, and the model classifies a line made of them as an invalid choice. For decimal digits of other scripts `int()` reads them, so `٣` would select section 3. For digit characters that are not decimal, such as `²`, `int()` raises `ValueError`, which the `except Exception` handler reports as an error.
- `TupleMenu.Classify`: a digit string longer than Python's integer-string conversion limit (4300 digits, from Python 3.11 on) makes `int()` raise `ValueError`, which the source reports as an error; the model reads its value and reports an invalid section number.
- TupleMenu.Iteration, TupleMenu.TupleLoop, TupleMenu.RunGuide, TupleMenu.SessionAll: these model the corrected loop, where running out of input (for the choice or for a pause of `all`) ends the session. As written the `EOFError` is reported and the loop never ends; that behaviour is modelled only as the functions `TupleMenu.StepAsWritten` and `TupleMenu.SessionAsWritten` (bounded by a number of turns), not as a method, because a loop that never ends has no termination measure.
- The `show_menu` registry is rebuilt on every turn in the source; the model passes the same fixed registry to every turn.

## Findings

| source | as written | input that shows it | evidently intended | confidence | as-written member | corrected member |
|---|---|---|---|---|---|---|
| Tuples/CommandLine/python_tuples_complete_guide.py:687-727 | `input()` at the end of input raises `EOFError`, a subclass of `Exception`, so the `except Exception` handler reports it and the `while True` loop reads again, forever | an input stream with no more lines: an empty stdin, or `all` followed by fewer than eleven lines for the pauses | the session ends when the operator's input runs out, as it does in the dictionary guide | medium, not executed | `TupleMenu.AsWrittenNeverEnds` | `TupleMenu.Step` |
