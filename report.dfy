/**
 * The command generator: given the reachability of the cluster, the index
 * listing, the ILM explain answers and today's date, it appends the
 * report's lines step by step. Each command block is a structured record
 * naming the indices it acts on; the markdown around it is not modelled.
 */
module Report {
  import opened Wrappers
  import opened Text
  import opened IndexNames
  import opened Lifecycle
  import opened Sorting

  /** One action of the data stream `_modify` request. */
  datatype BackingAction =
    | RemoveBackingIndex(dataStream: string, index: string)
    | AddBackingIndex(dataStream: string, index: string)

  /** One appended element of the report, in the order the steps emit them. */
  datatype Line =
    | NotConnected
    | Title(dataStream: string)
    | Separator
    | Heading(step: nat)
      // step 3
    | NoPartialIndices
    | ReindexIntro
    | ParseWarning(index: string)
    | ReindexCommand(source: string, dest: string)
      // step 4
    | CompareIntro
    | CountCheck(original: string, reindexed: string)
    | NoIndicesToCompare
      // step 5
    | MostRecentIntro(index: string)
    | LifecycleValue(millis: int)
    | NoLifecycleValue
    | VerifyIntro
    | ExplainCommand(index: string)
    | NoPartialsForLifecycle
      // step 6
    | ConsolidateIntro(large: string)
    | ConsolidateCommand(sources: seq<string>, dest: string)
    | NoTempIndices
      // step 7
    | SettingsIntro(large: string)
    | SettingsCommand(index: string, originationDate: int)
    | MoveIntro
    | MoveCommand(index: string)
    | NoLifecycleCommands
      // step 8
    | ModifyIntro(large: string, dataStream: string)
    | ModifyCommand(actions: seq<BackingAction>)
    | ConfirmIntro
    | ConfirmCommand(dataStream: string)
    | NoModifyCommands
      // step 9
    | DeleteIntro
    | DeleteCommand(indices: string)
    | NothingToDelete

  /**
   * The generator either returns its lines, or raises `IndexError` when the
   * count-comparison loop reads the temporary list past its end.
   */
  datatype Outcome = Completed(lines: seq<Line>) | IndexError(position: nat)

  /** The index listing: the request failed, or it returned these entries' `index` fields. */
  datatype ListReply = ListFailed | Listed(items: seq<Option<string>>)

  /** `get_partial_indices_for_data_stream`: a failed listing yields no names. */
  function Partials(listing: ListReply): (names: seq<string>)
    ensures forall n :: n in names ==> IsPartialName(n)
  {
    match listing
    case ListFailed => []
    case Listed(items) => FilterPartials(items)
  }

  /** Python truthiness of the lifecycle value: present and not zero. */
  predicate Truthy(v: Option<int>) {
    v.Some? && v.value != 0
  }

  // ---------------------------------------------------------------- the most recent index

  /** Position `k` holds the first name whose counter is the greatest. */
  predicate IsFirstMax(names: seq<string>, k: nat) {
    k < |names| &&
    (forall j :: 0 <= j < |names| ==> SuffixNumber(names[j]) <= SuffixNumber(names[k])) &&
    (forall j :: 0 <= j < k ==> SuffixNumber(names[j]) < SuffixNumber(names[k]))
  }

  /** `max(names, key=get_suffix_number)`, as a position: a later name replaces only on a greater key. */
  function FirstMaxIndex(names: seq<string>): (k: nat)
    requires |names| > 0
    ensures IsFirstMax(names, k)
  {
    if |names| == 1 then 0
    else
      var k := FirstMaxIndex(names[..|names| - 1]);
      FirstMaxExtend(names, k);
      if SuffixNumber(names[|names| - 1]) > SuffixNumber(names[k]) then |names| - 1 else k
  }

  /** Appending one name: it becomes the first greatest only when its counter is greater. */
  lemma FirstMaxExtend(names: seq<string>, k: nat)
    requires |names| > 1 && IsFirstMax(names[..|names| - 1], k)
    ensures IsFirstMax(names, if SuffixNumber(names[|names| - 1]) > SuffixNumber(names[k]) then |names| - 1 else k)
  {
    var init := names[..|names| - 1];
    assert forall j :: 0 <= j < |init| ==> names[j] == init[j];
  }

  /** `max(names, key=get_suffix_number)`: one pass keeping the first greatest counter. */
  method MostRecent(names: seq<string>) returns (k: nat)
    requires |names| > 0
    ensures k < |names|
    ensures forall j :: 0 <= j < |names| ==> SuffixNumber(names[j]) <= SuffixNumber(names[k])
    ensures forall j :: 0 <= j < k ==> SuffixNumber(names[j]) < SuffixNumber(names[k])
  {
    k := 0;
    var i := 1;
    while i < |names|
      invariant 1 <= i <= |names| && k < i
      invariant forall j :: 0 <= j < i ==> SuffixNumber(names[j]) <= SuffixNumber(names[k])
      invariant forall j :: 0 <= j < k ==> SuffixNumber(names[j]) < SuffixNumber(names[k])
    {
      if SuffixNumber(names[i]) > SuffixNumber(names[k]) {
        k := i;
      }
      i := i + 1;
    }
  }

  /** The first greatest position is unique, so every way of finding it agrees. */
  lemma FirstMaxUnique(names: seq<string>, k1: nat, k2: nat)
    requires IsFirstMax(names, k1) && IsFirstMax(names, k2)
    ensures k1 == k2
  {
    var s1, s2 := SuffixNumber(names[k1]), SuffixNumber(names[k2]);
    assert s1 <= s2 && s2 <= s1;
    assert k1 < k2 ==> s1 < s2;
    assert k2 < k1 ==> s2 < s1;
  }

  // ---------------------------------------------------------------- the report's steps

  function ParseWarnings(names: seq<string>): (lines: seq<Line>)
    ensures forall l :: l in lines ==> l.ParseWarning?
  {
    if names == [] then []
    else
      var last := names[|names| - 1];
      ParseWarnings(names[..|names| - 1]) + (if ParseBase(last).None? then [ParseWarning(last)] else [])
  }

  function ReindexCommands(names: seq<string>): (lines: seq<Line>)
    ensures forall l :: l in lines ==> l.ReindexCommand?
  {
    if names == [] then []
    else
      var last := names[|names| - 1];
      ReindexCommands(names[..|names| - 1]) +
      (match ParseBase(last) case Some(b) => [ReindexCommand(last, TempName(b))] case None => [])
  }

  function CountChecks(originals: seq<string>, temps: seq<string>): (lines: seq<Line>)
    requires |originals| <= |temps|
    ensures forall l :: l in lines ==> l.CountCheck?
  {
    if originals == [] then []
    else
      var i := |originals| - 1;
      CountChecks(originals[..i], temps) + [CountCheck(originals[i], temps[i])]
  }

  function RemoveActions(dataStream: string, names: seq<string>): seq<BackingAction> {
    if names == [] then []
    else RemoveActions(dataStream, names[..|names| - 1]) + [RemoveBackingIndex(dataStream, names[|names| - 1])]
  }

  /** The lifecycle value read for the most recent partial index, if any. */
  function LifecycleOf(sorted: seq<string>, explain: string -> ExplainReply): Option<int> {
    if sorted == [] then None
    else
      var pick := sorted[FirstMaxIndex(sorted)];
      LifecycleDateMillis(pick, explain(pick))
  }

  function Step3(sorted: seq<string>): seq<Line> {
    if sorted == [] then [Heading(3), NoPartialIndices]
    else [Heading(3), ReindexIntro] + ParseWarnings(sorted) + ReindexCommands(sorted)
  }

  function Step4(sorted: seq<string>, temps: seq<string>): seq<Line>
    requires temps == [] || |temps| == |sorted|
  {
    if sorted != [] && temps != [] then [Separator, Heading(4), CompareIntro] + CountChecks(sorted, temps)
    else [Separator, Heading(4), NoIndicesToCompare]
  }

  function Step5(sorted: seq<string>, explain: string -> ExplainReply): seq<Line> {
    if sorted == [] then [Separator, Heading(5), NoPartialsForLifecycle]
    else
      var pick := sorted[FirstMaxIndex(sorted)];
      var millis := LifecycleOf(sorted, explain);
      [Separator, Heading(5), MostRecentIntro(pick),
       if Truthy(millis) then LifecycleValue(millis.value) else NoLifecycleValue,
       VerifyIntro, ExplainCommand(pick)]
  }

  function Step6(temps: seq<string>, large: string): seq<Line> {
    if temps != [] then [Separator, Heading(6), ConsolidateIntro(large), ConsolidateCommand(temps, large)]
    else [Separator, Heading(6), NoTempIndices]
  }

  function Step7(millis: Option<int>, large: string): seq<Line> {
    if Truthy(millis) && large != "" then
      [Separator, Heading(7), SettingsIntro(large), SettingsCommand(large, millis.value), MoveIntro, MoveCommand(large)]
    else [Separator, Heading(7), NoLifecycleCommands]
  }

  function Step8(dataStream: string, sorted: seq<string>, large: string): seq<Line> {
    if sorted != [] && large != "" then
      [Separator, Heading(8),
       ModifyIntro(large, dataStream),
       ModifyCommand(RemoveActions(dataStream, sorted) + [AddBackingIndex(dataStream, large)]),
       ConfirmIntro,
       ConfirmCommand(dataStream)]
    else [Separator, Heading(8), NoModifyCommands]
  }

  function Step9(sorted: seq<string>, temps: seq<string>): seq<Line> {
    if sorted + temps != [] then [Separator, Heading(9), DeleteIntro, DeleteCommand(Join(sorted + temps, ","))]
    else [Separator, Heading(9), NothingToDelete]
  }

  /** What `generate_elasticsearch_reindex_commands` returns for these inputs. */
  function Runbook(dataStream: string, hasClient: bool, pingSucceeds: bool, listing: ListReply,
                  explain: string -> ExplainReply, today: Date): Outcome
    requires ValidDate(today)
  {
    if !hasClient || !pingSucceeds then Completed([NotConnected])
    else
      var sorted := SortedNames(Partials(listing));
      var temps := TempNames(sorted);
      if temps != [] && |temps| < |sorted| then IndexError(|temps|)
      else
        var large := LargeIndexName(dataStream, today);
        Completed([Title(dataStream), Separator] + Step3(sorted) + Step4(sorted, temps) +
                  Step5(sorted, explain) + Step6(temps, large) + Step7(LifecycleOf(sorted, explain), large) +
                  Step8(dataStream, sorted, large) + Step9(sorted, temps))
  }

  // ---------------------------------------------------------------- the generator

  /** `partial_indices.sort()`: the list's elements sorted in place in an array. */
  method SortList(names: seq<string>) returns (sorted: seq<string>)
    ensures sorted == SortedNames(names)
  {
    var a := new string[|names|](k requires 0 <= k < |names| => names[k]);
    assert a[..] == names;
    SortInPlace(a);
    sorted := a[..];
    SortedUnique(sorted, SortedNames(names));
  }

  /**
   * Step 3: with no partial names, a warning; otherwise sort them in place
   * and, for each, either derive its temporary name and a reindex command or
   * add a warning; the commands follow the warnings.
   */
  method ReindexStep(partials: seq<string>) returns (section: seq<Line>, sorted: seq<string>, temps: seq<string>)
    ensures sorted == SortedNames(partials)
    ensures temps == TempNames(sorted)
    ensures section == Step3(sorted)
  {
    section := [Heading(3)];
    sorted := partials;
    temps := [];
    if sorted == [] {
      section := section + [NoPartialIndices];
      return;
    }
    section := section + [ReindexIntro];
    assert section == [Heading(3), ReindexIntro];
    sorted := SortList(partials);
    var commands;
    section, temps, commands := DeriveTempNames(section, sorted);
    section := section + commands;
  }

  /**
   * The loop of step 3: each name that parses adds its temporary name and a
   * reindex command, each other name adds a warning to the section at once.
   */
  method DeriveTempNames(section: seq<Line>, sorted: seq<string>)
    returns (section': seq<Line>, temps: seq<string>, commands: seq<Line>)
    ensures section' == section + ParseWarnings(sorted)
    ensures temps == TempNames(sorted)
    ensures commands == ReindexCommands(sorted)
  {
    section', temps, commands := section, [], [];
    var i := 0;
    while i < |sorted|
      invariant 0 <= i <= |sorted|
      invariant temps == TempNames(sorted[..i])
      invariant commands == ReindexCommands(sorted[..i])
      invariant section' == section + ParseWarnings(sorted[..i])
    {
      var index := sorted[i];
      assert sorted[..i + 1][..i] == sorted[..i];
      match ParseBase(index) {
        case Some(base) =>
          var dest := TempName(base);
          temps := temps + [dest];
          commands := commands + [ReindexCommand(index, dest)];
        case None =>
          section' := section' + [ParseWarning(index)];
      }
      i := i + 1;
    }
    assert sorted[..i] == sorted;
  }

  /**
   * Step 4: one count check per position of the partial list, reading the
   * temporary list at the same position; `failedAt` is the position where
   * that read raises `IndexError`.
   */
  method CompareStep(sorted: seq<string>, temps: seq<string>) returns (section: seq<Line>, failedAt: Option<nat>)
    requires |temps| <= |sorted|
    ensures failedAt.Some? <==> temps != [] && |temps| < |sorted|
    ensures failedAt.Some? ==> failedAt.value == |temps|
    ensures failedAt.None? ==> (temps == [] || |temps| == |sorted|) && section == Step4(sorted, temps)
  {
    section := [Separator, Heading(4)];
    failedAt := None;
    if sorted != [] && temps != [] {
      section := section + [CompareIntro];
      var checks: seq<Line> := [];
      var i := 0;
      while i < |sorted|
        invariant 0 <= i <= |sorted| && i <= |temps|
        invariant checks == CountChecks(sorted[..i], temps)
      {
        if i >= |temps| {
          failedAt := Some(i);
          return;
        }
        assert sorted[..i + 1][..i] == sorted[..i];
        checks := checks + [CountCheck(sorted[i], temps[i])];
        i := i + 1;
      }
      assert sorted[..i] == sorted;
      section := section + checks;
    } else {
      section := section + [NoIndicesToCompare];
    }
  }

  /** Step 5: pick the most recent partial index and read its lifecycle date. */
  method LifecycleStep(sorted: seq<string>, explain: string -> ExplainReply)
    returns (section: seq<Line>, lifecycle: Option<int>)
    ensures lifecycle == LifecycleOf(sorted, explain)
    ensures section == Step5(sorted, explain)
  {
    section := [Separator, Heading(5)];
    lifecycle := None;
    if sorted != [] {
      var k := MostRecent(sorted);
      FirstMaxUnique(sorted, k, FirstMaxIndex(sorted));
      var mostRecent := sorted[k];
      section := section + [MostRecentIntro(mostRecent)];
      lifecycle := LifecycleDateMillis(mostRecent, explain(mostRecent));
      if Truthy(lifecycle) {
        section := section + [LifecycleValue(lifecycle.value)];
      } else {
        section := section + [NoLifecycleValue];
      }
      section := section + [VerifyIntro, ExplainCommand(mostRecent)];
    } else {
      section := section + [NoPartialsForLifecycle];
    }
  }

  /** Step 6: reindex every temporary index into the large index. */
  method ConsolidateStep(temps: seq<string>, large: string) returns (section: seq<Line>)
    ensures section == Step6(temps, large)
  {
    section := [Separator, Heading(6)];
    if temps != [] {
      section := section + [ConsolidateIntro(large), ConsolidateCommand(temps, large)];
    } else {
      section := section + [NoTempIndices];
    }
  }

  /** Step 7: stamp the origination date on the large index and move it past the rollover error. */
  method LifecycleCommandsStep(lifecycle: Option<int>, large: string) returns (section: seq<Line>)
    ensures section == Step7(lifecycle, large)
  {
    section := [Separator, Heading(7)];
    if Truthy(lifecycle) && large != "" {
      section := section + [SettingsIntro(large), SettingsCommand(large, lifecycle.value)];
      section := section + [MoveIntro, MoveCommand(large)];
    } else {
      section := section + [NoLifecycleCommands];
    }
  }

  /** Step 8: remove every partial index from the data stream and add the large one. */
  method ModifyStep(dataStream: string, sorted: seq<string>, large: string) returns (section: seq<Line>)
    ensures section == Step8(dataStream, sorted, large)
  {
    section := [Separator, Heading(8)];
    if sorted != [] && large != "" {
      var removeActions: seq<BackingAction> := [];
      for i := 0 to |sorted|
        invariant removeActions == RemoveActions(dataStream, sorted[..i])
      {
        assert sorted[..i + 1][..i] == sorted[..i];
        removeActions := removeActions + [RemoveBackingIndex(dataStream, sorted[i])];
      }
      assert sorted[..|sorted|] == sorted;
      section := section + [ModifyIntro(large, dataStream),
                            ModifyCommand(removeActions + [AddBackingIndex(dataStream, large)])];
      section := section + [ConfirmIntro, ConfirmCommand(dataStream)];
    } else {
      section := section + [NoModifyCommands];
    }
  }

  /** Step 9: delete the partial and the temporary indices in one comma-joined request. */
  method DeleteStep(sorted: seq<string>, temps: seq<string>) returns (section: seq<Line>)
    ensures section == Step9(sorted, temps)
  {
    section := [Separator, Heading(9)];
    var toDelete := sorted + temps;
    if toDelete != [] {
      section := section + [DeleteIntro, DeleteCommand(Join(toDelete, ","))];
    } else {
      section := section + [NothingToDelete];
    }
  }

  /**
   * `generate_elasticsearch_reindex_commands`, appending each step's lines
   * to `output` in order; the client, its ping, the listing, the explain
   * requests and the clock are its parameters.
   */
  method GenerateReport(dataStream: string, hasClient: bool, pingSucceeds: bool, listing: ListReply,
                        explain: string -> ExplainReply, today: Date)
    returns (outcome: Outcome)
    requires ValidDate(today)
    ensures outcome == Runbook(dataStream, hasClient, pingSucceeds, listing, explain, today)
    ensures !hasClient || !pingSucceeds ==> outcome == Completed([NotConnected])
  {
    var output: seq<Line> := [];
    if !hasClient || !pingSucceeds {
      output := output + [NotConnected];
      return Completed(output);
    }
    output := output + [Title(dataStream), Separator];
    assert output == [Title(dataStream), Separator];

    var section, partials, temps := ReindexStep(Partials(listing));
    output := output + section;

    var failedAt;
    section, failedAt := CompareStep(partials, temps);
    if failedAt.Some? {
      return IndexError(failedAt.value);
    }
    output := output + section;

    var lifecycle;
    section, lifecycle := LifecycleStep(partials, explain);
    output := output + section;

    var large := LargeIndexName(dataStream, today);
    section := ConsolidateStep(temps, large);
    output := output + section;
    section := LifecycleCommandsStep(lifecycle, large);
    output := output + section;
    section := ModifyStep(dataStream, partials, large);
    output := output + section;
    section := DeleteStep(partials, temps);
    output := output + section;
    outcome := Completed(output);
  }

  // ---------------------------------------------------------------- properties of the report

  /** Step 8's removals name every partial index, in order, and nothing else. */
  lemma {:induction false} RemoveActionsExact(dataStream: string, names: seq<string>)
    ensures |RemoveActions(dataStream, names)| == |names|
    ensures forall i :: 0 <= i < |names| ==> RemoveActions(dataStream, names)[i] == RemoveBackingIndex(dataStream, names[i])
  {
    if names != [] {
      RemoveActionsExact(dataStream, names[..|names| - 1]);
    }
  }

  /**
   * Step 3's reindex commands pair each name that parses, in sorted order,
   * with the temporary name at the same place in the temporary list.
   */
  lemma {:induction false} ReindexCommandsPaired(names: seq<string>)
    ensures var commands, idx, temps := ReindexCommands(names), ParsedPositions(names), TempNames(names);
      |commands| == |idx| == |temps| &&
      forall k :: 0 <= k < |commands| ==> idx[k] < |names| && commands[k] == ReindexCommand(names[idx[k]], temps[k])
  {
    TempNamesDerived(names);
    if names != [] {
      var init := names[..|names| - 1];
      ReindexCommandsPaired(init);
      var idx := ParsedPositions(init);
      forall k | 0 <= k < |idx| ensures names[idx[k]] == init[idx[k]] { }
    }
  }

  /** The positions of the names that do not parse. */
  function UnparsedPositions(names: seq<string>): (idx: seq<nat>)
    ensures forall k :: 0 <= k < |idx| ==> idx[k] < |names|
  {
    if names == [] then []
    else UnparsedPositions(names[..|names| - 1]) + (if ParseBase(names[|names| - 1]).None? then [|names| - 1] else [])
  }

  /**
   * Step 3 warns about exactly the names that do not parse, once each, in
   * sorted order.
   */
  lemma {:induction false} ParseWarningsExact(names: seq<string>)
    ensures var warnings, idx := ParseWarnings(names), UnparsedPositions(names);
      |warnings| == |idx| &&
      (forall k :: 0 <= k < |idx| ==> warnings[k] == ParseWarning(names[idx[k]])) &&
      (forall k1, k2 :: 0 <= k1 < k2 < |idx| ==> idx[k1] < idx[k2])
  {
    if names != [] {
      var init := names[..|names| - 1];
      ParseWarningsExact(init);
      var idx := UnparsedPositions(init);
      forall k | 0 <= k < |idx| ensures names[idx[k]] == init[idx[k]] { }
    }
  }

  /** A position is warned about exactly when its name does not parse. */
  lemma {:induction false} UnparsedPositionsExact(names: seq<string>)
    ensures forall i :: 0 <= i < |names| ==> (ParseBase(names[i]).None? <==> i in UnparsedPositions(names))
  {
    if names != [] {
      var init := names[..|names| - 1];
      UnparsedPositionsExact(init);
      var idx := UnparsedPositions(init);
      assert |names| - 1 !in idx;
      forall i | 0 <= i < |init|
        ensures ParseBase(names[i]).None? <==> i in UnparsedPositions(names)
      {
        assert names[i] == init[i];
      }
    }
  }

  /** Step 4 checks each partial name against the temporary name at the same position, in order. */
  lemma {:induction false} CountChecksPaired(originals: seq<string>, temps: seq<string>)
    requires |originals| <= |temps|
    ensures |CountChecks(originals, temps)| == |originals|
    ensures forall k :: 0 <= k < |originals| ==> CountChecks(originals, temps)[k] == CountCheck(originals[k], temps[k])
  {
    if originals != [] {
      CountChecksPaired(originals[..|originals| - 1], temps);
    }
  }

  lemma SortedEmpty(names: seq<string>)
    ensures SortedNames(names) == [] <==> names == []
  {
    assert |multiset(SortedNames(names))| == |multiset(names)|;
  }

  lemma SortedSameNames(names: seq<string>)
    ensures forall n :: n in SortedNames(names) <==> n in names
  {
    forall n ensures n in SortedNames(names) <==> n in names {
      assert n in SortedNames(names) <==> n in multiset(SortedNames(names));
    }
  }

  /**
   * The count comparison of a connected report raises `IndexError` (its
   * temporary list is non-empty and shorter than the sorted partial list)
   * exactly when some partial name parses and some other does not.
   */
  lemma IndexErrorExactly(partials: seq<string>)
    ensures var sorted := SortedNames(partials);
      var temps := TempNames(sorted);
      (temps != [] && |temps| < |sorted|) <==>
      (exists n :: n in partials && ParseBase(n).Some?) && (exists n :: n in partials && ParseBase(n).None?)
  {
    var sorted := SortedNames(partials);
    TempNamesComplete(sorted);
    TempNamesEmpty(sorted);
    SortedSameNames(partials);
    if (exists n :: n in partials && ParseBase(n).Some?) && (exists n :: n in partials && ParseBase(n).None?) {
      var n1 :| n1 in partials && ParseBase(n1).Some?;
      var n2 :| n2 in partials && ParseBase(n2).None?;
      var i1 :| 0 <= i1 < |sorted| && sorted[i1] == n1;
      var i2 :| 0 <= i2 < |sorted| && sorted[i2] == n2;
    }
  }

  /**
   * Step 8's `_modify` request is emitted exactly when partial indices were
   * found (the large index name is never empty, see
   * `LargeIndexNameDistinct`); it removes each sorted partial index and then
   * adds the large index.
   */
  lemma ModifyEmittedExactly(dataStream: string, partials: seq<string>, large: string)
    requires large != ""
    ensures var sorted := SortedNames(partials);
      (exists l :: l in Step8(dataStream, sorted, large) && l.ModifyCommand?) <==> partials != []
    ensures var sorted := SortedNames(partials);
      forall l :: l in Step8(dataStream, sorted, large) && l.ModifyCommand? ==>
        l.actions == RemoveActions(dataStream, sorted) + [AddBackingIndex(dataStream, large)]
  {
    var sorted := SortedNames(partials);
    SortedEmpty(partials);
    var section := Step8(dataStream, sorted, large);
    if partials != [] {
      assert section[3].ModifyCommand?;
    } else {
      assert section == [Separator, Heading(8), NoModifyCommands];
    }
  }

  /**
   * Step 7's commands are emitted exactly when the lifecycle value is
   * truthy (present and not zero), and they stamp that value on the large index.
   */
  lemma LifecycleCommandsEmittedExactly(millis: Option<int>, large: string)
    requires large != ""
    ensures (exists l :: l in Step7(millis, large) && l.SettingsCommand?) <==> Truthy(millis)
    ensures forall l :: l in Step7(millis, large) && l.SettingsCommand? ==> l == SettingsCommand(large, millis.value)
  {
    var section := Step7(millis, large);
    if Truthy(millis) {
      assert section[3].SettingsCommand?;
    } else {
      assert section == [Separator, Heading(7), NoLifecycleCommands];
    }
  }

  /**
   * Step 9 deletes the sorted partial indices followed by the temporary
   * ones, comma-joined, exactly when partial indices were found, and
   * otherwise says there is nothing to delete.
   */
  lemma DeleteListExact(partials: seq<string>)
    ensures var sorted := SortedNames(partials);
      DeleteCommand(Join(sorted + TempNames(sorted), ",")) in Step9(sorted, TempNames(sorted)) <==> partials != []
    ensures var sorted := SortedNames(partials);
      NothingToDelete in Step9(sorted, TempNames(sorted)) <==> partials == []
  {
    SortedEmpty(partials);
    DeleteSection(SortedNames(partials), TempNames(SortedNames(partials)));
  }

  lemma DeleteSection(sorted: seq<string>, temps: seq<string>)
    requires |temps| <= |sorted|
    ensures DeleteCommand(Join(sorted + temps, ",")) in Step9(sorted, temps) <==> sorted != []
    ensures NothingToDelete in Step9(sorted, temps) <==> sorted == []
  {
    var section := Step9(sorted, temps);
    if sorted != [] {
      assert sorted + temps != [] by { assert |sorted + temps| >= |sorted| > 0; }
      assert section == [Separator, Heading(9), DeleteIntro, DeleteCommand(Join(sorted + temps, ","))];
      assert section[3] == DeleteCommand(Join(sorted + temps, ","));
    } else {
      assert sorted + temps == [];
      assert section == [Separator, Heading(9), NothingToDelete];
    }
  }

  /** The large index is never among the indices step 9 deletes. */
  lemma LargeIndexNotDeleted(dataStream: string, partials: seq<string>, today: Date)
    requires ValidDate(today)
    requires forall n :: n in partials ==> IsPartialName(n)
    ensures var sorted := SortedNames(partials);
      LargeIndexName(dataStream, today) !in sorted + TempNames(sorted)
  {
    var sorted := SortedNames(partials);
    SortedSameNames(partials);
    LargeIndexNameDistinct(dataStream, today);
    LargeIndexNotTemporary(dataStream, sorted, today);
  }

  /** No temporary name is the large index. */
  lemma LargeIndexNotTemporary(dataStream: string, names: seq<string>, today: Date)
    requires ValidDate(today)
    ensures LargeIndexName(dataStream, today) !in TempNames(names)
  {
    var temps := TempNames(names);
    LargeIndexNameDistinct(dataStream, today);
    TempNamesDerived(names);
    forall t | t in temps ensures IsBackingBase(t[8..]) && t == TempName(t[8..]) {
      var k :| 0 <= k < |temps| && temps[k] == t;
      var n := names[ParsedPositions(names)[k]];
      ParseBaseLongestMatch(n);
      assert t == TempName(ParseBase(n).value);
      assert t[8..] == ParseBase(n).value;
    }
  }

  /**
   * Step 6 consolidates the temporary indices exactly when some sorted
   * partial name parses, and otherwise warns; the large index it writes
   * into is never one of its sources.
   */
  lemma ConsolidateEmittedExactly(dataStream: string, sorted: seq<string>, today: Date)
    requires ValidDate(today)
    ensures var temps, large := TempNames(sorted), LargeIndexName(dataStream, today);
      ConsolidateCommand(temps, large) in Step6(temps, large) <==>
      exists i :: 0 <= i < |sorted| && ParseBase(sorted[i]).Some?
    ensures var temps, large := TempNames(sorted), LargeIndexName(dataStream, today);
      NoTempIndices in Step6(temps, large) <==> forall i :: 0 <= i < |sorted| ==> ParseBase(sorted[i]).None?
    ensures LargeIndexName(dataStream, today) !in TempNames(sorted)
  {
    TempNamesEmpty(sorted);
    LargeIndexNotTemporary(dataStream, sorted, today);
    ConsolidateSection(TempNames(sorted), LargeIndexName(dataStream, today));
  }

  lemma ConsolidateSection(temps: seq<string>, large: string)
    ensures ConsolidateCommand(temps, large) in Step6(temps, large) <==> temps != []
    ensures NoTempIndices in Step6(temps, large) <==> temps == []
  {
    if temps != [] {
      assert Step6(temps, large)[3] == ConsolidateCommand(temps, large);
    }
  }

  /**
   * The gating of steps 7 and 8 for the large index name the report
   * actually uses, which is never empty.
   */
  lemma LargeIndexGating(dataStream: string, partials: seq<string>, millis: Option<int>, today: Date)
    requires ValidDate(today)
    ensures var large := LargeIndexName(dataStream, today);
      (exists l :: l in Step8(dataStream, SortedNames(partials), large) && l.ModifyCommand?) <==> partials != []
    ensures var large := LargeIndexName(dataStream, today);
      (exists l :: l in Step7(millis, large) && l.SettingsCommand?) <==> Truthy(millis)
  {
    LargeIndexNameDistinct(dataStream, today);
    ModifyEmittedExactly(dataStream, partials, LargeIndexName(dataStream, today));
    LifecycleCommandsEmittedExactly(millis, LargeIndexName(dataStream, today));
  }

  /**
   * Two generations of one data stream's partial indices both parse, and
   * their temporary names are `reindex-` and the backing names.
   */
  lemma TwoGenerationsTempNames(dataStream: string, created1: Date, created2: Date)
    requires ValidDate(created1) && ValidDate(created2)
    requires |dataStream| > 0 && '\n' !in dataStream
    ensures var b1, b2 := BackingIndexName(dataStream, created1, 1), BackingIndexName(dataStream, created2, 2);
      TempNames(["partial-" + b1, "partial-" + b2]) == ["reindex-" + b1, "reindex-" + b2]
  {
    var b1, b2 := BackingIndexName(dataStream, created1, 1), BackingIndexName(dataStream, created2, 2);
    BackingIndexNameShape(dataStream, created1, 1);
    BackingIndexNameShape(dataStream, created2, 2);
    ParseBaseOfPartial(b1);
    ParseBaseOfPartial(b2);
    TempNamesOfTwo("partial-" + b1, "partial-" + b2);
  }

  lemma TempNamesOfTwo(n1: string, n2: string)
    requires ParseBase(n1).Some? && ParseBase(n2).Some?
    ensures TempNames([n1, n2]) == [TempName(ParseBase(n1).value), TempName(ParseBase(n2).value)]
  {
    assert [n1, n2][..1] == [n1];
    assert [n1][..0] == [];
  }

  /** Of the same two generations, the second, with the greater counter, is the most recent. */
  lemma TwoGenerationsPick(dataStream: string, created1: Date, created2: Date)
    requires ValidDate(created1) && ValidDate(created2)
    requires |dataStream| > 0 && '\n' !in dataStream
    ensures var b1, b2 := BackingIndexName(dataStream, created1, 1), BackingIndexName(dataStream, created2, 2);
      FirstMaxIndex(["partial-" + b1, "partial-" + b2]) == 1
  {
    var b1, b2 := BackingIndexName(dataStream, created1, 1), BackingIndexName(dataStream, created2, 2);
    BackingIndexNameShape(dataStream, created1, 1);
    BackingIndexNameShape(dataStream, created2, 2);
    var names := ["partial-" + b1, "partial-" + b2];
    assert names[..1] == ["partial-" + b1];
  }
}
