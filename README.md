# Reindexing partial indices of an Elasticsearch data stream

`main.py` prints a runbook for one data stream. The runbook explains how to replace the stream's
`partial-` backing indices (searchable-snapshot mounts) with one consolidated `reindex-.ds-<stream>-large-<date>`
index. The steps are:

- step 3 reindexes each partial index into a temporary `reindex-` index;
- step 4 compares document counts;
- step 5 reads the `lifecycle_date_millis` of the most recent partial index;
- step 6 consolidates the temporary indices into the large index;
- step 7 stamps the origination date on the large index and moves it past the rollover error;
- step 8 swaps the backing indices of the data stream;
- step 9 deletes the old and temporary indices.

This project models the naming-convention logic that decides what the runbook contains, and proves its properties.

- `text.dfy` (`Text`): string prefixes, ASCII digits, zero padding, and Python's `str.join`, with a split that inverts it.
- `index_names.dfy` (`IndexNames`):
  - the filter that keeps `partial-` names but drops `partial-reindex-` names;
  - the anchored, greedy match of `partial-(\.ds-.+-\d{4}\.\d{2}\.\d{2}-\d{6})`, which gives the base name and the temporary `reindex-` name;
  - the `-(\d{6})$` generation counter;
  - the `strftime('%Y.%m.%d')` date and the large index name.
- `lifecycle.dfy` (`Lifecycle`): choosing `lifecycle_date_millis` from an ILM explain response.
- `sorting.dfy` (`Sorting`):
  - Python's string order;
  - `list.sort()` as an in-place insertion sort on an array, proved sorted and a permutation;
  - a functional sort that specifies it, and a proof that sorted permutations are unique.
- `report.dfy` (`Report`):
  - the runbook as a sequence of structured lines (`Line`) in place of rendered markdown;
  - a specification function `Runbook`;
  - the generator `GenerateReport`, which appends each step's section to `output` in order.

The generator's inputs are parameters. They are: whether a client exists and whether its ping succeeds, the listing
reply (`ListReply`), a function from index name to explain reply, and today's date.

The generator's result is an `Outcome`: either the completed lines, or `IndexError(position)`. Step 4 reads the
temporary list at every position of the partial list. When some partial names parse and others do not, the temporary
list is shorter, and the read past its end raises `IndexError`. That exception escapes the generator, so the pairs
misaligned before it are never shown. The model reports the crash rather than a misaligned report, and
`Report.IndexErrorExactly` states exactly when it happens.

## Model

| member | source | states |
|---|---|---|
| IndexNames.FilterPartials | main.py:52-57 | The kept names are no more than the listed items, and each starts with `partial-` and not with `partial-reindex-`. |
| IndexNames.FilterPartialsInOrder | main.py:52-57 | The kept names are the listed items at strictly increasing positions, each item being present and equal to its kept name. |
| IndexNames.KeptPositionsExact | main.py:52-57 | An item is kept exactly when it is present, non-empty, starts with `partial-` and does not start with `partial-reindex-`. |
| Report.Partials | main.py:51-61 | A failed listing yields no names; every name returned is a partial name. |
| Lifecycle.LifecycleDateMillis | main.py:71-79 | A failed request or a missing `indices` object gives nothing. The entry under the index's own name gives its field. Without that entry, a single-entry response gives the sole entry's field, and any other response gives nothing. |
| Lifecycle.SoleEntry | main.py:77-78 | The value read from a one-entry response is the value under its only key. |
| Sorting.SortInPlace | main.py:112 | After the in-place sort the array is in Python string order and holds the same names with the same multiplicities. |
| Sorting.SinkLast | main.py:112 | One insertion pass extends the sorted prefix by one position, keeps the multiset of names, and leaves the unsorted rest of the array untouched. |
| Sorting.LexLeTotal | main.py:112 | Any two strings are comparable in Python's string order. |
| Sorting.LexLeTrans | main.py:112 | Python's string order is transitive. |
| Sorting.LexLeAntisym | main.py:112 | Two strings each no greater than the other are equal. |
| Sorting.Insert | main.py:112 | Inserting into a sorted list keeps it sorted and adds exactly that name. |
| Sorting.SortedNames | main.py:112 | The functional sort is sorted and a permutation of its input. |
| Sorting.SortedUnique | main.py:112 | Two sorted permutations of the same names are equal, so the in-place sort has exactly one possible result. |
| Report.SortList | main.py:112 | Sorting the names through an array gives exactly the functional sort of the names. |
| IndexNames.LongestBaseEndIsGreatest | main.py:117 | The search returns an end position at which the base pattern matches, and no greater one matches; without a result, no end position matches. |
| IndexNames.ParseBaseLongestMatch | main.py:117-119 | A name matches exactly when it starts with `partial-` and the rest begins with a base-shaped prefix. The captured base is such a prefix with the backing-index shape, and no longer prefix matches (greedy `.+`). |
| IndexNames.ParseBaseOfPartial | main.py:117-119 | `partial-` followed by any backing-index base parses back to that base. |
| IndexNames.BackingIndexNameShape | main.py:116-117 | `.ds-<stream>-<YYYY.MM.DD>-<NNNNNN>` for a non-empty single-line stream has the base shape, and its `partial-` copy reads back its counter. |
| IndexNames.TempNames | main.py:114-121 | The temporary list is never longer than the partial list. |
| IndexNames.TempNamesDerived | main.py:114-121 | Each temporary name is `reindex-` plus the parsed base of a partial name, taken at strictly increasing positions of the sorted list. |
| IndexNames.ParsedPositionsExact | main.py:114-121 | A position contributes a temporary name exactly when its name parses. |
| IndexNames.TempNamesComplete | main.py:114-121 | The temporary list is as long as the partial list exactly when every partial name parses. |
| IndexNames.TempNamesEmpty | main.py:114-121 | The temporary list is empty exactly when no partial name parses. |
| Report.DeriveTempNames | main.py:114-137 | The loop adds a warning per unparsable name, and produces the temporary names and one reindex command per parsed name, in sorted order. |
| Report.ReindexCommandsPaired | main.py:114-134 | The k-th reindex command copies the k-th name that parses, in sorted order, into the k-th temporary name. |
| Report.ParseWarningsExact | main.py:135-136 | The warnings name the unparsable names once each, at strictly increasing sorted positions. |
| Report.UnparsedPositionsExact | main.py:118-136 | A position is warned about exactly when its name does not parse. |
| Report.ReindexStep | main.py:102-137 | Step 3 sorts the partial names, derives the temporary names, and emits the step-3 section; with no partial names it emits only the warning. |
| Report.TwoGenerationsTempNames | main.py:114-121 | Partial indices of generations 1 and 2 of one stream map to `reindex-` plus their backing names. |
| Report.CompareStep | main.py:140-154 | The comparison raises `IndexError` at position `|temps|` exactly when the temporary list is non-empty and shorter than the partial list. Otherwise it emits one count check per pair, or the warning when either list is empty. |
| Report.CountChecksPaired | main.py:145-152 | There is one count check per partial name, pairing it with the temporary name at the same position, in order. |
| Report.IndexErrorExactly | main.py:142-147 | A connected report raises `IndexError` exactly when some partial name parses and some other does not. |
| IndexNames.SuffixNumber | main.py:162-164 | The counter lies in -1..999999. It is non-negative exactly when the name ends in `-` and six digits, optionally followed by one final newline. |
| IndexNames.SuffixNumberOfSerial | main.py:162-164 | A name ending in `-` and a six-digit zero-padded counter reads back that counter. |
| Report.FirstMaxIndex | main.py:166 | The pick holds the greatest counter, and every earlier name has a smaller one: Python `max` keeps the first maximal key. |
| Report.FirstMaxExtend | main.py:166 | An appended name replaces the pick only when its counter is strictly greater. |
| Report.MostRecent | main.py:166 | The one-pass scan returns a position of the list whose counter is at least every other and strictly above every earlier one. |
| Report.FirstMaxUnique | main.py:166 | Only one position is the first with the greatest counter, so the scan and the specification agree. |
| Report.TwoGenerationsPick | main.py:162-166 | Of generations 1 and 2 of one stream, the second is the most recent. |
| Report.LifecycleStep | main.py:157-181 | Step 5 reads the lifecycle of the first index with the greatest counter. It reports the value when it is truthy, otherwise a warning, and then the verify command; with no partial names it emits only the warning. |
| IndexNames.FormatDate | main.py:186 | The date renders as ten characters `DDDD.DD.DD`. |
| IndexNames.FormatDateRoundTrip | main.py:186 | The rendered year, month and day read back as the date's own. |
| Text.PadDigitsRoundTrip | main.py:186 | A number below `10^width`, zero-padded to `width` digits, reads back as itself. |
| IndexNames.LargeIndexNameDistinct | main.py:186-187 | The large index name is never empty. It differs from every temporary name and from every partial name. |
| Report.ConsolidateStep | main.py:184-204 | Step 6 emits the section `Step6`, whose gating `ConsolidateEmittedExactly` proves. |
| Report.ConsolidateSection | main.py:188-204 | The consolidate command is emitted exactly when the temporary list is non-empty; otherwise the warning is emitted. |
| Report.ConsolidateEmittedExactly | main.py:186-204 | For the sorted partial names, the consolidation of all their temporary names is emitted exactly when some name parses, and the warning exactly when none does. The large index is never one of its sources. |
| Report.LargeIndexNotTemporary | main.py:186-187 | No temporary name equals the large index name. |
| Report.LifecycleCommandsStep | main.py:207-237 | Step 7 emits the settings and move commands for the large index when the lifecycle value is truthy and the name non-empty, otherwise a warning. |
| Report.LargeIndexGating | main.py:209-242 | For the large name the report uses, step 8's `_modify` is emitted exactly when partial names were found, and step 7's settings exactly when the lifecycle value is present and non-zero. |
| Report.LifecycleCommandsEmittedExactly | main.py:209-235 | Given a non-empty large name, the settings command is emitted exactly when the lifecycle value is present and non-zero, and it carries that value. |
| Report.ModifyStep | main.py:240-276 | Step 8's loop builds one removal per partial index and then the addition of the large index, followed by the confirm command; otherwise a warning. |
| Report.RemoveActionsExact | main.py:243-250 | There is one removal per partial name, in order, each naming the data stream and that index. |
| Report.ModifyEmittedExactly | main.py:242-268 | Given a non-empty large name, the `_modify` request is emitted exactly when partial names were found. It removes the sorted partial indices and adds the large one. |
| Report.DeleteStep | main.py:279-291 | Step 9 deletes the partial and temporary indices joined by `,`, or says there is nothing to delete. |
| Report.DeleteSection | main.py:281-291 | Step 9 deletes the joined list exactly when the partial list is non-empty, and says there is nothing to delete exactly when it is empty. |
| Report.DeleteListExact | main.py:281-291 | For the sorted partials of a connected report, the delete command is emitted exactly when partial names were found, otherwise the nothing-to-delete line. |
| Report.LargeIndexNotDeleted | main.py:281-285 | The large index is never among the deleted indices. |
| Text.JoinContains | main.py:284 | A character that is not the separator occurs in the joined list exactly when it occurs in one of the names, so the list adds no spaces. |
| Text.SplitJoin | main.py:284 | Splitting the comma-joined list at `,` gives back the names, when none of them contains a comma. |
| Report.GenerateReport | main.py:87-293 | The generator returns exactly `Runbook`. Without a client or a successful ping, the result is the single not-connected line. |

## Left out

- `connect_to_elasticsearch`, loading `.env`, and the module-level script are left out. They are client set-up, network and printing. The client's existence and its ping result are parameters.
- The `cat.indices` and `_ilm/explain` requests are left out, and so are the exception handlers around them. Their results are parameters: a failed listing yields no names, and a failed explain yields nothing.
- `datetime.date.today()` is left out. The date is a parameter, with a four-digit year, as `%Y` then renders four digits.
- The markdown, JSON and bash text of each command block, and the final `"\n".join(output)`, are left out. Each block is a structured `Line` that carries the names and values it interpolates.
- Step 6 keeps the temporary names as a list rather than the quoted `", "` join.
- Regular expressions are not modelled in general. Only the two fixed patterns are written out by hand, with `\d` as the ASCII digits. Python's `\d` also accepts other Unicode decimal digits.
- `Lifecycle.LifecycleDateMillis`: a JSON `null` or a non-integer `lifecycle_date_millis` is modelled as absent. An entry's other fields are modelled only by their names, which matter only for whether the entry is truthy.
- `IndexNames.ParseBase` and `IndexNames.SuffixNumber` act on names as sequences of characters. Byte or code-point encoding is not modelled.
