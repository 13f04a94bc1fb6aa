/**
 * The naming conventions of a data stream's backing indices:
 * which names the listing keeps as partial indices, how the backing
 * base name is read out of a partial name, how the generation counter
 * at the end of a name is read, and how the consolidated index is named.
 */
module IndexNames {
  import opened Wrappers
  import opened Text

  // ---------------------------------------------------------------- listing filter

  /** A searchable-snapshot index that is not the residue of an earlier run. */
  predicate IsPartialName(name: string) {
    StartsWith(name, "partial-") && !StartsWith(name, "partial-reindex-")
  }

  /**
   * An entry of the index listing is kept when its `index` field is present,
   * non-empty and a partial name; `None` stands for a missing or null field.
   */
  predicate Kept(item: Option<string>) {
    item.Some? && item.value != "" && IsPartialName(item.value)
  }

  /** The list comprehension over the listing: the kept names, in listing order. */
  function FilterPartials(items: seq<Option<string>>): (names: seq<string>)
    ensures |names| <= |items|
    ensures forall n :: n in names ==> IsPartialName(n)
  {
    if items == [] then []
    else
      var last := items[|items| - 1];
      FilterPartials(items[..|items| - 1]) + (if Kept(last) then [last.value] else [])
  }

  /** The positions of the listing that the filter keeps. */
  function KeptPositions(items: seq<Option<string>>): (idx: seq<nat>)
    ensures forall k :: 0 <= k < |idx| ==> idx[k] < |items|
  {
    if items == [] then []
    else KeptPositions(items[..|items| - 1]) + (if Kept(items[|items| - 1]) then [|items| - 1] else [])
  }

  /**
   * The filter's result is the listing read at the kept positions, which
   * increase: it keeps the listing's order.
   */
  lemma {:induction false} FilterPartialsInOrder(items: seq<Option<string>>)
    ensures var idx, names := KeptPositions(items), FilterPartials(items);
      |idx| == |names| &&
      (forall k :: 0 <= k < |idx| ==> idx[k] < |items| && items[idx[k]] == Some(names[k])) &&
      (forall k1, k2 :: 0 <= k1 < k2 < |idx| ==> idx[k1] < idx[k2])
  {
    if items != [] {
      var init := items[..|items| - 1];
      FilterPartialsInOrder(init);
      var idx := KeptPositions(init);
      forall k | 0 <= k < |idx| ensures items[idx[k]] == init[idx[k]] { }
    }
  }

  /**
   * A listing position is kept exactly when its entry is a present,
   * non-empty partial name.
   */
  lemma {:induction false} KeptPositionsExact(items: seq<Option<string>>)
    ensures forall i :: 0 <= i < |items| ==> (Kept(items[i]) <==> i in KeptPositions(items))
  {
    if items != [] {
      var init := items[..|items| - 1];
      KeptPositionsExact(init);
      var idx := KeptPositions(init);
      assert |items| - 1 !in idx;
      forall i | 0 <= i < |init|
        ensures Kept(items[i]) <==> i in KeptPositions(items)
      {
        assert items[i] == init[i];
      }
    }
  }

  // ---------------------------------------------------------------- base-name parsing

  /** `-DDDD.DD.DD-DDDDDD`: the creation date and generation counter closing a backing index name. */
  predicate DateSerialTail(t: string) {
    |t| == 18 && t[0] == '-' && AllDigits(t[1..5]) && t[5] == '.' && AllDigits(t[6..8]) &&
    t[8] == '.' && AllDigits(t[9..11]) && t[11] == '-' && AllDigits(t[12..])
  }

  /**
   * The pattern `\.ds-.+-\d{4}\.\d{2}\.\d{2}-\d{6}` matches exactly `s[..k]`:
   * `.ds-`, then at least one character other than a newline, then the tail.
   */
  predicate BaseEndsAt(s: string, k: int) {
    23 <= k <= |s| && StartsWith(s, ".ds-") &&
    (forall i :: 4 <= i < k - 18 ==> s[i] != '\n') &&
    DateSerialTail(s[k - 18..k])
  }

  /** A whole string of the backing-base shape `.ds-<stream>-YYYY.MM.DD-NNNNNN`. */
  predicate IsBackingBase(b: string) {
    BaseEndsAt(b, |b|)
  }

  /** Searching down from `k` for an end position at which the base pattern matches. */
  function LongestBaseEnd(s: string, k: nat): (r: Option<nat>)
    requires k <= |s|
    ensures r.Some? ==> r.value <= k
  {
    if BaseEndsAt(s, k) then Some(k)
    else if k == 0 then None
    else LongestBaseEnd(s, k - 1)
  }

  /** The search finds the greatest end position `j <= k` at which the pattern matches, if any. */
  lemma {:induction false} LongestBaseEndIsGreatest(s: string, k: nat)
    requires k <= |s|
    ensures LongestBaseEnd(s, k).Some? ==> BaseEndsAt(s, LongestBaseEnd(s, k).value)
    ensures LongestBaseEnd(s, k).Some? ==> forall j :: LongestBaseEnd(s, k).value < j <= k ==> !BaseEndsAt(s, j)
    ensures LongestBaseEnd(s, k).None? ==> forall j :: 0 <= j <= k ==> !BaseEndsAt(s, j)
  {
    if !BaseEndsAt(s, k) && k > 0 {
      LongestBaseEndIsGreatest(s, k - 1);
    }
  }

  lemma PrefixKeepsBase(s: string, k: nat)
    requires BaseEndsAt(s, k)
    ensures IsBackingBase(s[..k])
  {
    var b := s[..k];
    assert b[..4] == s[..4];
    assert b[k - 18..k] == s[k - 18..k];
  }

  /**
   * `re.match(r"partial-(\.ds-.+-\d{4}\.\d{2}\.\d{2}-\d{6})", name)`, group 1:
   * the base of the name, when it has one.
   */
  function ParseBase(name: string): Option<string> {
    if !StartsWith(name, "partial-") then None
    else
      var rest := name[8..];
      match LongestBaseEnd(rest, |rest|)
      case None => None
      case Some(k) => Some(rest[..k])
  }

  /**
   * The match is anchored at the start only and `.+` is greedy: a name has a
   * base exactly when it starts with `partial-` and some prefix of the rest
   * matches the base pattern, and the base is the longest such prefix.
   */
  lemma ParseBaseLongestMatch(name: string)
    ensures ParseBase(name).Some? <==> StartsWith(name, "partial-") && exists k :: BaseEndsAt(name[8..], k)
    ensures ParseBase(name).Some? ==>
      IsBackingBase(ParseBase(name).value) && StartsWith(name[8..], ParseBase(name).value)
    ensures ParseBase(name).Some? ==>
      forall k :: |ParseBase(name).value| < k <= |name| - 8 ==> !BaseEndsAt(name[8..], k)
  {
    if StartsWith(name, "partial-") {
      var rest := name[8..];
      var r := LongestBaseEnd(rest, |rest|);
      LongestBaseEndIsGreatest(rest, |rest|);
      if r.Some? {
        PrefixKeepsBase(rest, r.value);
      }
    }
  }

  /** Parsing recovers the base of a partial name built from a well-formed base. */
  lemma ParseBaseOfPartial(base: string)
    requires IsBackingBase(base)
    ensures ParseBase("partial-" + base) == Some(base)
  {
    var name := "partial-" + base;
    assert name[..8] == "partial-";
    assert name[8..] == base;
    assert LongestBaseEnd(base, |base|) == Some(|base|);
    assert base[..|base|] == base;
  }

  /** The temporary index a partial index is copied into. */
  function TempName(base: string): string {
    "reindex-" + base
  }

  /** The parse loop's parallel list: a temporary name for each name that parses, in order. */
  function TempNames(names: seq<string>): (temps: seq<string>)
    ensures |temps| <= |names|
  {
    if names == [] then []
    else
      var last := names[|names| - 1];
      TempNames(names[..|names| - 1]) + (match ParseBase(last) case Some(b) => [TempName(b)] case None => [])
  }

  /** The positions of the names that parse. */
  function ParsedPositions(names: seq<string>): (idx: seq<nat>)
    ensures forall k :: 0 <= k < |idx| ==> idx[k] < |names|
  {
    if names == [] then []
    else ParsedPositions(names[..|names| - 1]) + (if ParseBase(names[|names| - 1]).Some? then [|names| - 1] else [])
  }

  /**
   * Each temporary name comes from the source at the same place among the
   * parsed positions, which increase: it is `reindex-` followed by that
   * source's parsed base.
   */
  lemma {:induction false} TempNamesDerived(names: seq<string>)
    ensures var idx, temps := ParsedPositions(names), TempNames(names);
      |idx| == |temps| &&
      (forall k :: 0 <= k < |idx| ==>
         idx[k] < |names| && ParseBase(names[idx[k]]).Some? &&
         temps[k] == TempName(ParseBase(names[idx[k]]).value)) &&
      (forall k1, k2 :: 0 <= k1 < k2 < |idx| ==> idx[k1] < idx[k2])
  {
    if names != [] {
      var init := names[..|names| - 1];
      TempNamesDerived(init);
      var idx := ParsedPositions(init);
      forall k | 0 <= k < |idx| ensures names[idx[k]] == init[idx[k]] { }
    }
  }

  /** A source position is among the parsed positions exactly when its name parses. */
  lemma {:induction false} ParsedPositionsExact(names: seq<string>)
    ensures forall i :: 0 <= i < |names| ==> (ParseBase(names[i]).Some? <==> i in ParsedPositions(names))
  {
    if names != [] {
      var init := names[..|names| - 1];
      ParsedPositionsExact(init);
      var idx := ParsedPositions(init);
      assert |names| - 1 !in idx;
      forall i | 0 <= i < |init|
        ensures ParseBase(names[i]).Some? <==> i in ParsedPositions(names)
      {
        assert names[i] == init[i];
      }
    }
  }

  /** The parallel list is as long as the sources exactly when every source parses. */
  lemma {:induction false} TempNamesComplete(names: seq<string>)
    ensures |TempNames(names)| == |names| <==> forall i :: 0 <= i < |names| ==> ParseBase(names[i]).Some?
  {
    if names != [] {
      var init := names[..|names| - 1];
      TempNamesComplete(init);
      if |TempNames(names)| == |names| {
        forall i | 0 <= i < |names| ensures ParseBase(names[i]).Some? {
          if i < |init| { assert names[i] == init[i]; }
        }
      }
    }
  }

  /** The parallel list is empty exactly when no source parses. */
  lemma {:induction false} TempNamesEmpty(names: seq<string>)
    ensures TempNames(names) == [] <==> forall i :: 0 <= i < |names| ==> ParseBase(names[i]).None?
  {
    if names != [] {
      var init := names[..|names| - 1];
      TempNamesEmpty(init);
      if TempNames(names) == [] {
        forall i | 0 <= i < |names| ensures ParseBase(names[i]).None? {
          if i < |init| { assert names[i] == init[i]; }
        }
      }
    }
  }

  // ---------------------------------------------------------------- generation counter

  /** The string ends in `-` followed by six digits. */
  predicate EndsWithSerial(s: string) {
    |s| >= 7 && s[|s| - 7] == '-' && AllDigits(s[|s| - 6..])
  }

  /**
   * `re.search(r'-(\d{6})$', name)` read as an integer, or -1 without a match.
   * Like Python's `$`, the match may also end just before a final newline.
   */
  function SuffixNumber(name: string): (n: int)
    ensures -1 <= n < 1000000
    ensures n >= 0 <==>
      (EndsWithSerial(name) || (|name| > 0 && name[|name| - 1] == '\n' && EndsWithSerial(name[..|name| - 1])))
  {
    assert Pow10(6) == 1000000;
    if EndsWithSerial(name) then DigitsValue(name[|name| - 6..])
    else if |name| > 0 && name[|name| - 1] == '\n' && EndsWithSerial(name[..|name| - 1]) then
      DigitsValue(name[|name| - 7..|name| - 1])
    else -1
  }

  /** Reading the counter of a name that ends in `-` and a six-digit counter gives that counter. */
  lemma SuffixNumberOfSerial(prefix: string, n: nat)
    requires n < 1000000
    ensures SuffixNumber(prefix + "-" + PadDigits(n, 6)) == n
  {
    var name := prefix + "-" + PadDigits(n, 6);
    assert name[|name| - 6..] == PadDigits(n, 6);
    assert Pow10(6) == 1000000;
    PadDigitsRoundTrip(n, 6);
  }

  // ---------------------------------------------------------------- consolidated index

  datatype Date = Date(year: int, month: int, day: int)

  /** A calendar date whose year `%Y` renders with four digits. */
  predicate ValidDate(d: Date) {
    1000 <= d.year <= 9999 && 1 <= d.month <= 12 && 1 <= d.day <= 31
  }

  /** `strftime('%Y.%m.%d')`. */
  function FormatDate(d: Date): (s: string)
    requires ValidDate(d)
    ensures |s| == 10 && s[4] == '.' && s[7] == '.'
    ensures AllDigits(s[..4]) && AllDigits(s[5..7]) && AllDigits(s[8..])
  {
    PadDigits(d.year, 4) + "." + PadDigits(d.month, 2) + "." + PadDigits(d.day, 2)
  }

  /** The formatted date reads back as the same year, month and day. */
  lemma FormatDateRoundTrip(d: Date)
    requires ValidDate(d)
    ensures DigitsValue(FormatDate(d)[..4]) == d.year
    ensures DigitsValue(FormatDate(d)[5..7]) == d.month
    ensures DigitsValue(FormatDate(d)[8..]) == d.day
  {
    var s := FormatDate(d);
    assert s[..4] == PadDigits(d.year, 4);
    assert s[5..7] == PadDigits(d.month, 2);
    assert s[8..] == PadDigits(d.day, 2);
    assert Pow10(4) == 10000 && Pow10(2) == 100;
    PadDigitsRoundTrip(d.year, 4);
    PadDigitsRoundTrip(d.month, 2);
    PadDigitsRoundTrip(d.day, 2);
  }

  /** The name Elasticsearch gives a data stream's backing index: `.ds-<stream>-<YYYY.MM.DD>-<NNNNNN>`. */
  function BackingIndexName(dataStream: string, created: Date, generation: nat): string
    requires ValidDate(created) && generation < 1000000
  {
    ".ds-" + dataStream + "-" + FormatDate(created) + "-" + PadDigits(generation, 6)
  }

  /**
   * A backing index name of a non-empty, single-line data stream has the
   * base shape, and its `partial-` copy reads back its generation counter.
   */
  lemma BackingIndexNameShape(dataStream: string, created: Date, generation: nat)
    requires ValidDate(created) && generation < 1000000
    requires |dataStream| > 0 && '\n' !in dataStream
    ensures IsBackingBase(BackingIndexName(dataStream, created, generation))
    ensures SuffixNumber("partial-" + BackingIndexName(dataStream, created, generation)) == generation
  {
    var date, digits := FormatDate(created), PadDigits(generation, 6);
    var b := BackingIndexName(dataStream, created, generation);
    var head := ".ds-" + dataStream;
    var tail := "-" + date + "-" + digits;
    assert b == head + tail;
    BaseOfParts(head, tail);
    var prefix := "partial-" + head + "-" + date;
    assert "partial-" + b == prefix + "-" + digits;
    SuffixNumberOfSerial(prefix, generation);
  }

  lemma BaseOfParts(head: string, tail: string)
    requires |head| > 4 && head[..4] == ".ds-" && forall i :: 4 <= i < |head| ==> head[i] != '\n'
    requires DateSerialTail(tail)
    ensures IsBackingBase(head + tail)
  {
    var b := head + tail;
    assert b[|b| - 18..|b|] == tail;
    assert b[..4] == head[..4];
  }

  /** The consolidated index: `reindex-.ds-<data stream>-large-<YYYY.MM.DD>`. */
  function LargeIndexName(dataStream: string, today: Date): string
    requires ValidDate(today)
  {
    "reindex-.ds-" + dataStream + "-large-" + FormatDate(today)
  }

  /**
   * The consolidated name is never empty and is neither a partial name nor
   * a temporary name derived from a parsed base: it starts with `reindex-`,
   * and its third character from the end is the `.` of the date, where a
   * temporary name has a digit of its counter.
   */
  lemma LargeIndexNameDistinct(dataStream: string, today: Date)
    requires ValidDate(today)
    ensures |LargeIndexName(dataStream, today)| > 0
    ensures forall base :: IsBackingBase(base) ==> LargeIndexName(dataStream, today) != TempName(base)
    ensures forall partial :: IsPartialName(partial) ==> LargeIndexName(dataStream, today) != partial
  {
    var large := LargeIndexName(dataStream, today);
    var date := FormatDate(today);
    assert large[|large| - 3] == date[7] == '.';
    forall base | IsBackingBase(base) ensures large != TempName(base) {
      var t := TempName(base);
      var tail := base[|base| - 18..|base|];
      assert DateSerialTail(tail);
      assert t[|t| - 3] == tail[15];
      assert IsDigit(tail[12..][3]);
    }
    forall partial | IsPartialName(partial) ensures large != partial {
      assert large[0] == 'r' && partial[..8] == "partial-" && partial[0] == 'p';
    }
  }
}
