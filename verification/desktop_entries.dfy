/** Desktop-entry caches: the map from application id to parsed desktop entry
    that the panel builds at start-up, and the fuzzy lookup of a running
    window's application id in it.

    Scanning the XDG data directories and parsing the files is a foreign
    library; the model receives the outcome of parsing each file, in the
    order the directory iterator yields them. The locale-dependent name
    look-ups are fields of the parsed entry. */
module DesktopEntries {
  import opened Wrappers

  /** The parts of a parsed desktop entry the panel reads. */
  datatype DesktopEntry = DesktopEntry(
    appid: string,
    noDisplay: bool,
    /** `Name` under the locales of the environment */
    localizedName: Option<string>,
    /** `Name` under the default locale */
    defaultName: Option<string>,
    terminal: bool,
    exec: Option<string>,
    icon: Option<string>,
    startupWmClass: Option<string>)

  /** The outcome of parsing one file the directory iterator yields. */
  datatype ParseResult = Parsed(entry: DesktopEntry) | Unparsable

  /** The index of the last successfully parsed entry with application id `k`. */
  function LastWithId(parsed: seq<ParseResult>, k: string): (r: Option<nat>)
    ensures r.Some? ==> r.value < |parsed| && parsed[r.value].Parsed? && parsed[r.value].entry.appid == k
    ensures r.Some? ==> forall j :: r.value < j < |parsed| ==> !(parsed[j].Parsed? && parsed[j].entry.appid == k)
    ensures r.None? <==> forall j :: 0 <= j < |parsed| ==> !(parsed[j].Parsed? && parsed[j].entry.appid == k)
  {
    if |parsed| == 0 then None
    else
      var last := parsed[|parsed| - 1];
      if last.Parsed? && last.entry.appid == k then Some(|parsed| - 1)
      else LastWithId(parsed[..|parsed| - 1], k)
  }

  /** Inserts every parsed entry, in order, under its application id, keeping
      `value(entry)`; a later entry with the same id replaces an earlier one
      and unparsable files are skipped. */
  function BuildCache<E>(parsed: seq<ParseResult>, value: DesktopEntry -> E): (cache: map<string, E>)
    ensures forall k :: k in cache <==> LastWithId(parsed, k).Some?
    ensures forall k :: k in cache ==> cache[k] == value(parsed[LastWithId(parsed, k).value].entry)
  {
    if |parsed| == 0 then map[]
    else
      var earlier := BuildCache(parsed[..|parsed| - 1], value);
      match parsed[|parsed| - 1]
      case Parsed(e) => earlier[e.appid := value(e)]
      case Unparsable => earlier
  }

  /** An application id is cached exactly when some file parsed with it. */
  lemma CachedIds<E>(parsed: seq<ParseResult>, value: DesktopEntry -> E, k: string)
    ensures k in BuildCache(parsed, value) <==> exists i :: 0 <= i < |parsed| && parsed[i].Parsed? && parsed[i].entry.appid == k
  {
    var r := LastWithId(parsed, k);
    if r.Some? {
      assert parsed[r.value].Parsed? && parsed[r.value].entry.appid == k;
    }
  }

  /** The first entry, in `order`, whose value satisfies `matches`: the
      `values().find(..)` of a map whose iteration order is `order`. */
  function FindInOrder<E>(cache: map<string, E>, order: seq<string>, matches: E -> bool): (r: Option<E>)
    requires forall k :: k in order ==> k in cache
    ensures r.Some? ==> matches(r.value) && exists i :: 0 <= i < |order| && cache[order[i]] == r.value
    ensures r.None? <==> forall i :: 0 <= i < |order| ==> !matches(cache[order[i]])
  {
    if |order| == 0 then None
    else if matches(cache[order[0]]) then Some(cache[order[0]])
    else
      var r := FindInOrder(cache, order[1..], matches);
      assert forall i :: 1 <= i < |order| ==> order[i] == order[1..][i - 1];
      r
  }

  /** `fuzzy_match`: the entry cached under `pattern`; failing that, an entry
      whose `StartupWMClass` is `pattern`; failing that, an entry whose name
      in the default locale is `pattern`. Which of several equally good
      matches is returned depends on the map's iteration order, `order`. */
  function FuzzyMatch<E>(cache: map<string, E>, order: seq<string>, pattern: string,
                         wmClass: E -> Option<string>, defaultName: E -> Option<string>): (r: Option<E>)
    requires forall k :: k in cache <==> k in order
    ensures pattern in cache ==> r == Some(cache[pattern])
    ensures pattern !in cache && (exists k :: k in cache && wmClass(cache[k]) == Some(pattern)) ==>
      r.Some? && wmClass(r.value) == Some(pattern)
    ensures (pattern !in cache && (forall k :: k in cache ==> wmClass(cache[k]) != Some(pattern))
             && (exists k :: k in cache && defaultName(cache[k]) == Some(pattern))) ==>
      r.Some? && defaultName(r.value) == Some(pattern)
    ensures r.None? <==> (pattern !in cache
                         && (forall k :: k in cache ==> wmClass(cache[k]) != Some(pattern))
                         && (forall k :: k in cache ==> defaultName(cache[k]) != Some(pattern)))
    ensures r.Some? ==> exists k :: k in cache && cache[k] == r.value
  {
    if pattern in cache then Some(cache[pattern])
    else
      var byClass := FindInOrder(cache, order, e => wmClass(e) == Some(pattern));
      if byClass.Some? then byClass
      else FindInOrder(cache, order, e => defaultName(e) == Some(pattern))
  }

  /** Every iteration order finds something exactly when every other does:
      only the choice among equally good matches depends on it. */
  lemma MatchFoundIndependentOfOrder<E>(cache: map<string, E>, order1: seq<string>, order2: seq<string>,
                                        pattern: string, wmClass: E -> Option<string>, defaultName: E -> Option<string>)
    requires forall k :: k in cache <==> k in order1
    requires forall k :: k in cache <==> k in order2
    ensures FuzzyMatch(cache, order1, pattern, wmClass, defaultName).Some?
        <==> FuzzyMatch(cache, order2, pattern, wmClass, defaultName).Some?
  {
  }

  // ---------------------------------------------------------------------
  // The plain caches of the application tray and of the shell root

  /** `DesktopEntryCache::new` of the application tray and of the shell root:
      the parsed entries keyed by application id. */
  function EntryCache(parsed: seq<ParseResult>): (cache: map<string, DesktopEntry>)
    ensures forall k :: k in cache ==> cache[k].appid == k
    ensures forall k :: k in cache <==> LastWithId(parsed, k).Some?
    ensures forall k :: k in cache ==> cache[k] == parsed[LastWithId(parsed, k).value].entry
  {
    BuildCache(parsed, e => e)
  }

  /** When two files declare the same application id, the one iterated last
      is kept. */
  lemma LastDuplicateWins(earlier: seq<ParseResult>, e1: DesktopEntry, between: seq<ParseResult>, e2: DesktopEntry)
    requires e1.appid == e2.appid
    ensures var cache := EntryCache(earlier + [Parsed(e1)] + between + [Parsed(e2)]);
      e1.appid in cache && cache[e1.appid] == e2
  {
    var parsed := earlier + [Parsed(e1)] + between + [Parsed(e2)];
    assert parsed[|parsed| - 1] == Parsed(e2);
  }

  /** Unparsable files leave no trace in the cache. */
  lemma UnparsableIgnored(before: seq<ParseResult>, after: seq<ParseResult>)
    ensures EntryCache(before + [Unparsable] + after) == EntryCache(before + after)
  {
    var a := before + [Unparsable] + after;
    var b := before + after;
    forall k
      ensures LastWithId(a, k).Some? <==> LastWithId(b, k).Some?
      ensures LastWithId(a, k).Some? ==>
        a[LastWithId(a, k).value].entry == b[LastWithId(b, k).value].entry
    {
      LastWithIdSkipsUnparsable(before, after, k);
    }
  }

  lemma LastWithIdSkipsUnparsable(before: seq<ParseResult>, after: seq<ParseResult>, k: string)
    ensures var a, b := before + [Unparsable] + after, before + after;
      (LastWithId(a, k).Some? <==> LastWithId(b, k).Some?)
      && (LastWithId(a, k).Some? ==> a[LastWithId(a, k).value] == b[LastWithId(b, k).value])
  {
    var a, b := before + [Unparsable] + after, before + after;
    var ra, rb := LastWithId(a, k), LastWithId(b, k);
    // Index i of b corresponds to index Shift(i) of a.
    assert forall i :: 0 <= i < |before| ==> b[i] == a[i];
    assert forall i :: |before| <= i < |b| ==> b[i] == a[i + 1];
    if ra.Some? {
      assert ra.value != |before|;
      var i := if ra.value < |before| then ra.value else ra.value - 1;
      assert b[i] == a[ra.value];
      assert rb.Some?;
      var j := if rb.value < |before| then rb.value else rb.value + 1;
      assert a[j] == b[rb.value];
    }
  }

  /** An empty scan gives an empty cache. */
  lemma EmptyScanEmptyCache()
    ensures EntryCache([]) == map[]
  {
  }

  /** `fuzzy_match` of the application tray. */
  function FuzzyMatchEntry(cache: map<string, DesktopEntry>, order: seq<string>, pattern: string): (r: Option<DesktopEntry>)
    requires forall k :: k in cache <==> k in order
    ensures pattern in cache ==> r == Some(cache[pattern])
    ensures pattern !in cache && (exists k :: k in cache && cache[k].startupWmClass == Some(pattern)) ==>
      r.Some? && r.value.startupWmClass == Some(pattern)
    ensures (pattern !in cache && (forall k :: k in cache ==> cache[k].startupWmClass != Some(pattern))
             && (exists k :: k in cache && cache[k].defaultName == Some(pattern))) ==>
      r.Some? && r.value.defaultName == Some(pattern)
    ensures r.Some? ==> exists k :: k in cache && cache[k] == r.value
    ensures r.None? <==> (pattern !in cache
                         && (forall k :: k in cache ==> cache[k].startupWmClass != Some(pattern))
                         && (forall k :: k in cache ==> cache[k].defaultName != Some(pattern)))
    ensures r.Some? ==> (pattern in cache || r.value.startupWmClass == Some(pattern)
                         || r.value.defaultName == Some(pattern))
  {
    FuzzyMatch(cache, order, pattern, (e: DesktopEntry) => e.startupWmClass, (e: DesktopEntry) => e.defaultName)
  }
}
