/** The start menu's desktop-entry cache: each entry comes with its
    visibility and the icon resolved for it. Icon lookup is the parameter
    `find` (theme name, icon name) of the Icons module. */
module FreedesktopEntries {
  import opened Wrappers
  import opened DesktopEntries
  import Icons

  datatype EntryInfo = EntryInfo(entry: DesktopEntry, iconPath: Option<Icons.Path>, invisible: bool)

  /** An entry the start menu does not list: hidden, unnamed in the current
      locales, meant for a terminal, or without a command. */
  predicate Hidden(e: DesktopEntry)
  {
    e.noDisplay || e.localizedName.None? || e.terminal || e.exec.None?
  }

  /** `EntryInfo::new`: a visible entry's icon is looked up in the hicolor
      theme, falling back to the theme's default application icon. */
  function NewEntryInfo(e: DesktopEntry, theme: Icons.IconTheme,
                        find: (string, string) -> Option<Icons.Path>): (r: EntryInfo)
    ensures r.entry == e
    ensures r.invisible <==> Hidden(e)
    ensures r.invisible || e.icon.None? ==> r.iconPath == None
    ensures !r.invisible && e.icon.Some? && find("hicolor", e.icon.value).Some? ==>
      r.iconPath == find("hicolor", e.icon.value)
    ensures !r.invisible && e.icon.Some? && find("hicolor", e.icon.value).None? ==>
      r.iconPath == Icons.DefaultIconPath(theme, find)
  {
    var invisible := e.noDisplay || e.localizedName.None? || e.terminal || e.exec.None?;
    var iconPath :=
      if invisible then None
      else match e.icon
        case None => None
        case Some(icon) =>
          var hicolor := find("hicolor", icon);
          if hicolor.Some? then hicolor else Icons.DefaultIconPath(theme, find);
    EntryInfo(e, iconPath, invisible)
  }

  /** A hidden entry triggers no icon lookup: its info does not depend on
      the icon finder or the theme. */
  lemma HiddenEntryIgnoresIcons(e: DesktopEntry, t1: Icons.IconTheme, t2: Icons.IconTheme,
                                f1: (string, string) -> Option<Icons.Path>, f2: (string, string) -> Option<Icons.Path>)
    requires Hidden(e)
    ensures NewEntryInfo(e, t1, f1) == NewEntryInfo(e, t2, f2)
  {
  }

  /** Without a theme the only icon source is the hicolor lookup of the
      entry's own icon. */
  lemma NoThemeOnlyHicolor(e: DesktopEntry, find: (string, string) -> Option<Icons.Path>)
    ensures var r := NewEntryInfo(e, Icons.None, find);
      r.iconPath.Some? ==> e.icon.Some? && r.iconPath == find("hicolor", e.icon.value)
  {
  }

  /** `DesktopEntryCache::new` of the start menu. */
  function InfoCache(parsed: seq<ParseResult>, theme: Icons.IconTheme,
                     find: (string, string) -> Option<Icons.Path>): (cache: map<string, EntryInfo>)
    ensures forall k :: k in cache <==> LastWithId(parsed, k).Some?
    ensures forall k :: k in cache ==> cache[k].entry.appid == k
    ensures forall k :: k in cache ==>
      cache[k] == NewEntryInfo(parsed[LastWithId(parsed, k).value].entry, theme, find)
  {
    BuildCache(parsed, (e: DesktopEntry) => NewEntryInfo(e, theme, find))
  }

  /** The start menu caches the same entries as the plain cache, each
      decorated with its info. */
  lemma InfoCacheExtendsEntryCache(parsed: seq<ParseResult>, theme: Icons.IconTheme,
                                   find: (string, string) -> Option<Icons.Path>)
    ensures InfoCache(parsed, theme, find).Keys == EntryCache(parsed).Keys
    ensures forall k :: k in EntryCache(parsed) ==> InfoCache(parsed, theme, find)[k].entry == EntryCache(parsed)[k]
  {
  }

  /** `fuzzy_match` of the start menu. */
  function FuzzyMatchInfo(cache: map<string, EntryInfo>, order: seq<string>, pattern: string): (r: Option<EntryInfo>)
    requires forall k :: k in cache <==> k in order
    ensures pattern in cache ==> r == Some(cache[pattern])
    ensures pattern !in cache && (exists k :: k in cache && cache[k].entry.startupWmClass == Some(pattern)) ==>
      r.Some? && r.value.entry.startupWmClass == Some(pattern)
    ensures (pattern !in cache && (forall k :: k in cache ==> cache[k].entry.startupWmClass != Some(pattern))
             && (exists k :: k in cache && cache[k].entry.defaultName == Some(pattern))) ==>
      r.Some? && r.value.entry.defaultName == Some(pattern)
    ensures r.Some? ==> exists k :: k in cache && cache[k] == r.value
    ensures r.None? <==> (pattern !in cache
                         && (forall k :: k in cache ==> cache[k].entry.startupWmClass != Some(pattern))
                         && (forall k :: k in cache ==> cache[k].entry.defaultName != Some(pattern)))
    ensures r.Some? ==> (pattern in cache || r.value.entry.startupWmClass == Some(pattern)
                         || r.value.entry.defaultName == Some(pattern))
  {
    FuzzyMatch(cache, order, pattern, (i: EntryInfo) => i.entry.startupWmClass, (i: EntryInfo) => i.entry.defaultName)
  }
}
