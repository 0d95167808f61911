/** Icon theme selection and the icon paths derived from it. Icon lookup in
    the theme directories is a foreign library and is a parameter: `find`
    maps a theme name and an icon name to the path found, if any. */
module Icons {
  import W = Wrappers

  datatype IconTheme = Breeze | Cosmic | None

  type Path = string

  /** ASCII lower-casing of one character; other characters are unchanged. */
  function AsciiLowerChar(c: char): char
  {
    if 'A' <= c <= 'Z' then (c as int + 32) as char else c
  }

  /** `to_ascii_lowercase`. */
  function AsciiLowercase(s: string): (r: string)
    ensures |r| == |s|
    ensures forall i :: 0 <= i < |s| ==> r[i] == AsciiLowerChar(s[i])
  {
    seq(|s|, i requires 0 <= i < |s| => AsciiLowerChar(s[i]))
  }

  /** `IconTheme::default`: guesses the theme from `XDG_CURRENT_DESKTOP`,
      compared after ASCII lower-casing. */
  function DefaultTheme(currentDesktop: W.Option<string>): (t: IconTheme)
    ensures t == Breeze <==> currentDesktop.Some? && AsciiLowercase(currentDesktop.value) == "kde"
    ensures t == Cosmic <==> currentDesktop.Some? && AsciiLowercase(currentDesktop.value) == "cosmic"
  {
    match currentDesktop
    case Some(desktop) =>
      var lower := AsciiLowercase(desktop);
      if lower == "kde" then Breeze
      else if lower == "cosmic" then Cosmic
      else None
    case None => None
  }

  /** `c` is `lower` in either ASCII case (for a lower-case letter `lower`). */
  predicate EitherCase(c: char, lower: char)
    requires 'a' <= lower <= 'z'
  {
    c == lower || c as int == lower as int - 32
  }

  lemma LowerCharIs(c: char, lower: char)
    requires 'a' <= lower <= 'z'
    ensures AsciiLowerChar(c) == lower <==> EitherCase(c, lower)
  {
  }

  /** The desktop name is matched without regard to ASCII case: "KDE", "Kde"
      and "kde" all select Breeze, and "COSMIC" or "Cosmic" select Cosmic. */
  lemma DefaultThemeIgnoresCase(desktop: string)
    ensures DefaultTheme(W.Some(desktop)) == Breeze <==>
      |desktop| == 3 && EitherCase(desktop[0], 'k') && EitherCase(desktop[1], 'd') && EitherCase(desktop[2], 'e')
    ensures DefaultTheme(W.Some(desktop)) == Cosmic <==>
      |desktop| == 6 && EitherCase(desktop[0], 'c') && EitherCase(desktop[1], 'o') && EitherCase(desktop[2], 's')
      && EitherCase(desktop[3], 'm') && EitherCase(desktop[4], 'i') && EitherCase(desktop[5], 'c')
  {
    var lower := AsciiLowercase(desktop);
    if |desktop| == 3 {
      LowerCharIs(desktop[0], 'k');
      LowerCharIs(desktop[1], 'd');
      LowerCharIs(desktop[2], 'e');
      assert lower == "kde" <==> lower[0] == 'k' && lower[1] == 'd' && lower[2] == 'e';
    }
    if |desktop| == 6 {
      LowerCharIs(desktop[0], 'c');
      LowerCharIs(desktop[1], 'o');
      LowerCharIs(desktop[2], 's');
      LowerCharIs(desktop[3], 'm');
      LowerCharIs(desktop[4], 'i');
      LowerCharIs(desktop[5], 'c');
      assert lower == "cosmic" <==>
        lower[0] == 'c' && lower[1] == 'o' && lower[2] == 's' && lower[3] == 'm' && lower[4] == 'i' && lower[5] == 'c';
    }
  }

  /** `IconTheme::to_string`: the theme directory name. */
  function ThemeName(t: IconTheme): (name: string)
    ensures t == Breeze ==> name == "breeze"
    ensures t == Cosmic ==> name == "Cosmic"
    ensures t == None ==> name == "hicolor"
  {
    match t
    case Breeze => "breeze"
    case Cosmic => "Cosmic"
    case None => "hicolor"
  }

  /** Distinct themes have distinct directory names. */
  lemma ThemeNameInjective(a: IconTheme, b: IconTheme)
    ensures ThemeName(a) == ThemeName(b) ==> a == b
  {
  }

  /** `IconTheme::lookup`: queries the icon under the theme's own name. */
  function Lookup(t: IconTheme, icon: string, find: (string, string) -> W.Option<Path>): W.Option<Path>
  {
    find(ThemeName(t), icon)
  }

  /** A lookup consults the finder only about its own theme: finders that
      agree on the theme's name and the icon give the same answer, and a
      finder that knows icons of one theme only finds nothing for any other
      theme. */
  lemma LookupIsPerTheme(t: IconTheme, icon: string, other: IconTheme, f: (string, string) -> W.Option<Path>, g: (string, string) -> W.Option<Path>)
    ensures f(ThemeName(t), icon) == g(ThemeName(t), icon) ==> Lookup(t, icon, f) == Lookup(t, icon, g)
    ensures (forall name, i :: f(name, i).Some? ==> name == ThemeName(other)) ==>
      (Lookup(t, icon, f).Some? ==> t == other)
  {
    ThemeNameInjective(t, other);
  }

  /** `default_icon_path`: the fallback application icon of a theme. */
  function DefaultIconPath(t: IconTheme, find: (string, string) -> W.Option<Path>): (r: W.Option<Path>)
    ensures t == Breeze ==> r == find("breeze", "wayland")
    ensures t == Cosmic ==> r == find("Cosmic", "application-default")
    ensures t == None ==> r == W.None
  {
    match t
    case Breeze => Lookup(t, "wayland", find)
    case Cosmic => Lookup(t, "application-default", find)
    case None => W.None
  }

  /** `start_menu_icon`: the start-menu button icon of a theme. */
  function StartMenuIcon(t: IconTheme, find: (string, string) -> W.Option<Path>): (r: W.Option<Path>)
    ensures t == Breeze ==> r == find("breeze", "applications-all")
    ensures t == Cosmic ==> r == find("Cosmic", "applications-office")
    ensures t == None ==> r == W.None
  {
    match t
    case Breeze => Lookup(t, "applications-all", find)
    case Cosmic => Lookup(t, "applications-office", find)
    case None => W.None
  }

  /** Without a theme no lookup happens: the result does not depend on the
      icon finder at all. */
  lemma NoThemeNoLookup(f: (string, string) -> W.Option<Path>, g: (string, string) -> W.Option<Path>)
    ensures DefaultIconPath(None, f) == DefaultIconPath(None, g) == W.None
    ensures StartMenuIcon(None, f) == StartMenuIcon(None, g) == W.None
  {
  }

  // ---------------------------------------------------------------------
  // Image handles by file extension

  datatype ImageHandle = Svg(path: Path) | Image(path: Path)

  /** The position of the last `c` in `s`, if any. */
  function LastIndexOf(s: string, c: char): (r: W.Option<nat>)
    ensures r.Some? ==> r.value < |s| && s[r.value] == c && c !in s[r.value + 1..]
    ensures r.None? ==> c !in s
  {
    if |s| == 0 then W.None
    else if s[|s| - 1] == c then W.Some(|s| - 1)
    else
      var r := LastIndexOf(s[..|s| - 1], c);
      assert s == s[..|s| - 1] + [s[|s| - 1]];
      r
  }

  /** Whichever way it was found, the last occurrence is the one with no
      further occurrence after it. */
  lemma LastIndexOfIs(s: string, c: char, i: nat)
    requires i < |s| && s[i] == c && c !in s[i + 1..]
    ensures LastIndexOf(s, c) == W.Some(i)
  {
  }

  /** The path without what `Path::components` drops at its end: trailing
      separators and trailing `.` components. */
  function TrimTrailing(p: Path): (q: Path)
    ensures |q| <= |p| && q == p[..|q|]
    ensures |q| > 0 ==> q[|q| - 1] != '/'
    ensures |q| >= 2 ==> q[|q| - 2..] != "/."
  {
    if |p| > 0 && p[|p| - 1] == '/' then TrimTrailing(p[..|p| - 1])
    else if |p| >= 2 && p[|p| - 2..] == "/." then TrimTrailing(p[..|p| - 1])
    else p
  }

  /** `Path::file_name`: the last component, absent when there is none (an
      empty path, the root, a lone `.`) or it is `..`. */
  function FileName(p: Path): (name: W.Option<string>)
    ensures name.Some? ==> '/' !in name.value && name.value != "" && name.value != "." && name.value != ".."
  {
    var q := TrimTrailing(p);
    var start := match LastIndexOf(q, '/') case Some(i) => i + 1 case None => 0;
    var last := q[start..];
    if last == "" || last == "." || last == ".." then W.None else W.Some(last)
  }

  /** `Path::extension`: the part of the file name after its last dot; a
      file name without a dot, or whose only dot leads it, has none. */
  function Extension(p: Path): (ext: W.Option<string>)
    ensures ext.Some? ==> FileName(p).Some? && '.' !in ext.value
  {
    match FileName(p)
    case None => W.None
    case Some(name) =>
      match LastIndexOf(name, '.')
      case None => W.None
      case Some(i) => if i == 0 then W.None else W.Some(name[i + 1..])
  }

  /** `ImageHandle::from_path`: an SVG handle exactly when the extension is
      "svg", in that case; a raster image handle otherwise. */
  function FromPath(p: Path): (h: ImageHandle)
    ensures h.path == p
    ensures h.Svg? <==> Extension(p) == W.Some("svg")
  {
    if Extension(p) == W.Some("svg") then Svg(p) else Image(p)
  }

  /** The file name of `dir/name`, for a name without separators that does
      not end in a dot, is `name`. */
  lemma FileNameAfterSeparator(dir: Path, name: string)
    requires |name| > 0 && '/' !in name && name[|name| - 1] != '.'
    ensures FileName(dir + "/" + name) == W.Some(name)
  {
    var p := dir + "/" + name;
    assert p[|p| - 1] == name[|name| - 1];
    assert TrimTrailing(p) == p;
    assert p[|dir| + 1..] == name;
    LastIndexOfIs(p, '/', |dir|);
  }

  /** The extension of `dir/stem.ext`, for a non-empty stem and an extension
      free of separators and dots, is `ext`. */
  lemma ExtensionOfFile(dir: Path, stem: string, ext: string)
    requires |stem| > 0 && '/' !in stem
    requires |ext| > 0 && '/' !in ext && '.' !in ext
    ensures Extension(dir + "/" + stem + "." + ext) == W.Some(ext)
  {
    var name := stem + "." + ext;
    assert '/' !in name by {
      assert forall x :: x in name ==> x in stem || x == '.' || x in ext;
    }
    assert name[|name| - 1] == ext[|ext| - 1];
    assert dir + "/" + stem + "." + ext == dir + "/" + name;
    FileNameAfterSeparator(dir, name);
    assert name[|stem| + 1..] == ext;
    LastIndexOfIs(name, '.', |stem|);
  }

  /** A trailing separator or `.` component does not change the file name,
      so `dir/icon.svg/` and `dir/icon.svg/.` are SVG paths too. */
  lemma TrailingComponentsIgnored(p: Path)
    ensures FileName(p + "/") == FileName(p)
    ensures FileName(p + "/.") == FileName(p)
  {
    TrimTrailingSlash(p);
    TrimTrailingDot(p);
  }

  lemma TrimTrailingSlash(p: Path)
    ensures TrimTrailing(p + "/") == TrimTrailing(p)
  {
    var q := p + "/";
    assert q[|q| - 1] == '/';
    assert q[..|q| - 1] == p;
  }

  lemma TrimTrailingDot(p: Path)
    ensures TrimTrailing(p + "/.") == TrimTrailing(p)
  {
    var q := p + "/.";
    assert q[|q| - 1] == '.';
    assert q[|q| - 2..] == "/.";
    assert q[..|q| - 1] == p + "/";
    TrimTrailingSlash(p);
  }

  /** A file named `stem.svg` gets an SVG handle; the extension check is
      case-sensitive, so `stem.SVG` gets a raster handle. */
  lemma SvgByExtension(dir: Path, stem: string)
    requires |stem| > 0 && '/' !in stem
    ensures FromPath(dir + "/" + stem + "." + "svg").Svg?
    ensures FromPath(dir + "/" + stem + "." + "SVG").Image?
  {
    ExtensionOfFile(dir, stem, "svg");
    ExtensionOfFile(dir, stem, "SVG");
  }

  /** A dot that leads the file name does not start an extension: a file
      named `.svg` gets a raster handle. */
  lemma HiddenFileHasNoExtension(dir: Path)
    ensures FromPath(dir + "/.svg").Image?
  {
    var p := dir + "/.svg";
    assert TrimTrailing(p) == p by { assert p[|p| - 1] == 'g'; }
    assert p[|dir| + 1..] == ".svg";
    LastIndexOfIs(p, '/', |dir|);
    LastIndexOfIs(".svg", '.', 0);
  }
}
