/**
  Resource path resolution (foundry_app/core/resources.py).

  A filesystem path is modelled by its component list, the way
  `PurePosixPath.parts` sees it: an absolute path starts with the root
  component "/", every other component is a non-empty name without a
  slash. The filesystem itself is an abstract set of the paths that are
  regular files; the project root and the bundled-resources directory are
  parameters, since `resources.py` derives them from its own install location.
 */
module Resources {

  type Path = seq<string>

  const Root := "/"
  const ResourcesDir := "resources"

  /** The text between slashes, empty pieces included: `s.split("/")`. */
  function SplitOnSlash(s: string): (r: seq<string>)
    ensures |r| >= 1
    decreases |s|
  {
    if |s| == 0 then [""]
    else
      var rest := SplitOnSlash(s[1..]);
      if s[0] == '/' then [""] + rest
      else [[s[0]] + rest[0]] + rest[1..]
  }

  /** `"/".join(pieces)`. */
  function JoinOnSlash(pieces: seq<string>): string
    requires |pieces| >= 1
    decreases |pieces|
  {
    if |pieces| == 1 then pieces[0] else pieces[0] + "/" + JoinOnSlash(pieces[1..])
  }

  /** Splitting on slashes and joining back gives the original text. */
  lemma {:induction false} SplitJoinRoundTrip(s: string)
    ensures JoinOnSlash(SplitOnSlash(s)) == s
    decreases |s|
  {
    if |s| > 0 {
      var rest := SplitOnSlash(s[1..]);
      SplitJoinRoundTrip(s[1..]);
      if s[0] == '/' {
        assert SplitOnSlash(s) == [""] + rest;
        assert (["" ] + rest)[1..] == rest;
        assert s == [s[0]] + s[1..];
      } else {
        var r := [[s[0]] + rest[0]] + rest[1..];
        assert SplitOnSlash(s) == r;
        if |rest| == 1 {
          assert JoinOnSlash(r) == [s[0]] + rest[0];
        } else {
          assert r[1..] == rest[1..];
          assert JoinOnSlash(r) == [s[0]] + rest[0] + "/" + JoinOnSlash(rest[1..]);
          assert JoinOnSlash(rest) == rest[0] + "/" + JoinOnSlash(rest[1..]);
        }
        assert s == [s[0]] + s[1..];
      }
    }
  }

  /** No piece of a split contains a slash. */
  lemma {:induction false} SplitPiecesHaveNoSlash(s: string)
    ensures forall i :: 0 <= i < |SplitOnSlash(s)| ==> '/' !in SplitOnSlash(s)[i]
    decreases |s|
  {
    if |s| > 0 {
      SplitPiecesHaveNoSlash(s[1..]);
      var rest := SplitOnSlash(s[1..]);
      if s[0] != '/' {
        var r := [[s[0]] + rest[0]] + rest[1..];
        assert SplitOnSlash(s) == r;
        forall i | 0 <= i < |r|
          ensures '/' !in r[i]
        {
          if i == 0 {
            assert '/' !in rest[0];
          } else {
            assert r[i] == rest[i];
          }
        }
      }
    }
  }

  /** A slash-free prefix becomes the first piece; the rest is split on its own. */
  lemma {:induction false} SplitAfterName(a: string, b: string)
    requires '/' !in a
    ensures SplitOnSlash(a + "/" + b) == [a] + SplitOnSlash(b)
    decreases |a|
  {
    if |a| == 0 {
      assert a + "/" + b == ['/'] + b;
      assert (['/'] + b)[1..] == b;
    } else {
      assert a[0] in a;
      SplitAfterName(a[1..], b);
      assert (a + "/" + b)[1..] == a[1..] + "/" + b;
      assert [a[0]] + a[1..] == a;
    }
  }

  /** A slash-free text is a single piece. */
  lemma {:induction false} SplitName(a: string)
    requires '/' !in a
    ensures SplitOnSlash(a) == [a]
    decreases |a|
  {
    if |a| > 0 {
      assert a[0] in a;
      SplitName(a[1..]);
      assert [a[0]] + a[1..] == a;
    }
  }

  /** A component that names something: not empty and not the current directory. */
  predicate IsName(piece: string)
  {
    piece != "" && piece != "."
  }

  /** The pieces that are names, in order. */
  function Names(pieces: seq<string>): (r: seq<string>)
    ensures forall p :: p in r <==> p in pieces && IsName(p)
    ensures |r| <= |pieces|
  {
    if |pieces| == 0 then []
    else (if IsName(pieces[0]) then [pieces[0]] else []) + Names(pieces[1..])
  }

  /**
    `PurePosixPath(s).parts`: the root "/" first for an absolute text, then
    every name between slashes; empty pieces (from "//" or a trailing slash)
    and "." are dropped.
   */
  function Parts(s: string): (r: Path)
    ensures |s| > 0 && s[0] == '/' ==> |r| > 0 && r[0] == Root
    ensures forall i :: 0 <= i < |r| && !(i == 0 && |s| > 0 && s[0] == '/') ==>
      IsName(r[i]) && '/' !in r[i]
  {
    SplitPiecesHaveNoSlash(s);
    var head := if |s| > 0 && s[0] == '/' then [Root] else [];
    var names := Names(SplitOnSlash(s));
    assert forall i :: 0 <= i < |names| ==> names[i] in names;
    assert forall i :: |head| <= i < |head + names| ==> (head + names)[i] == names[i - |head|];
    head + names
  }

  /** Joining slash-free pieces and splitting the result again gives the pieces back. */
  lemma {:induction false} SplitOfJoin(pieces: seq<string>)
    requires |pieces| >= 1
    requires forall i :: 0 <= i < |pieces| ==> '/' !in pieces[i]
    ensures SplitOnSlash(JoinOnSlash(pieces)) == pieces
    decreases |pieces|
  {
    if |pieces| == 1 {
      SplitName(pieces[0]);
    } else {
      assert '/' !in pieces[0];
      SplitOfJoin(pieces[1..]);
      SplitAfterName(pieces[0], JoinOnSlash(pieces[1..]));
      assert [pieces[0]] + pieces[1..] == pieces;
    }
  }

  /** A list made only of names passes the name filter unchanged. */
  lemma {:induction false} NamesKeepsNames(pieces: seq<string>)
    requires forall i :: 0 <= i < |pieces| ==> IsName(pieces[i])
    ensures Names(pieces) == pieces
    decreases |pieces|
  {
    if |pieces| > 0 {
      assert IsName(pieces[0]);
      NamesKeepsNames(pieces[1..]);
      assert [pieces[0]] + pieces[1..] == pieces;
    }
  }

  /** The joined text starts with the first character of the first piece. */
  lemma JoinHead(pieces: seq<string>)
    requires |pieces| >= 1 && |pieces[0]| > 0
    ensures |JoinOnSlash(pieces)| > 0 && JoinOnSlash(pieces)[0] == pieces[0][0]
  {
    if |pieces| > 1 {
      var rest := "/" + JoinOnSlash(pieces[1..]);
      assert JoinOnSlash(pieces) == pieces[0] + rest;
    }
  }

  /** A text that does not start with a slash has only its names as parts. */
  lemma RelativeParts(s: string)
    requires !(|s| > 0 && s[0] == '/')
    ensures Parts(s) == Names(SplitOnSlash(s))
  {
    assert [] + Names(SplitOnSlash(s)) == Names(SplitOnSlash(s));
  }

  /**
    `PurePosixPath("/".join(names)).parts == names` for names without a
    slash: a relative text written out from its components parses back to
    exactly those components.
   */
  lemma PartsOfNames(names: seq<string>)
    requires |names| >= 1
    requires forall i :: 0 <= i < |names| ==> IsName(names[i]) && '/' !in names[i]
    ensures Parts(JoinOnSlash(names)) == names
  {
    var s := JoinOnSlash(names);
    assert IsName(names[0]) && '/' !in names[0];
    assert names[0][0] in names[0];
    JoinHead(names);
    RelativeParts(s);
    SplitOfJoin(names);
    NamesKeepsNames(names);
  }

  /** An absolute path starts with the root component. */
  predicate IsAbsolute(p: Path)
  {
    |p| > 0 && p[0] == Root
  }

  /** A well-formed component list: the root may come first, every later component is a name. */
  predicate WellFormed(p: Path)
  {
    forall i :: 0 <= i < |p| ==> (i == 0 && p[i] == Root) || (IsName(p[i]) && '/' !in p[i])
  }

  lemma PartsWellFormed(s: string)
    ensures WellFormed(Parts(s))
    ensures IsAbsolute(Parts(s)) <==> |s| > 0 && s[0] == '/'
  {
    var r := Parts(s);
    if |r| > 0 && !(|s| > 0 && s[0] == '/') {
      assert '/' !in r[0];
      assert Root[0] == '/';
    }
  }

  /** `base / rel`: an absolute right-hand side replaces the base. */
  function Join(base: Path, rel: Path): (r: Path)
    ensures IsAbsolute(rel) ==> r == rel
    ensures !IsAbsolute(rel) ==> |r| == |base| + |rel| && r[..|base|] == base && r[|base|..] == rel
  {
    if IsAbsolute(rel) then rel else base + rel
  }

  /** The outcome of a lookup: the path returned, and whether a "Resource not found" warning was logged. */
  datatype Resolution = Resolution(path: Path, warned: bool)

  /** `_PROJECT_ROOT / relative`. */
  function DevPath(projectRoot: Path, relative: string): Path
  {
    Join(projectRoot, Parts(relative))
  }

  /** Whether `relative` is eligible for the bundled fallback: its first component is "resources". */
  predicate UnderResources(relative: string)
  {
    var parts := Parts(relative);
    |parts| > 0 && parts[0] == ResourcesDir
  }

  /** `_BUNDLED_RESOURCES / Path(*parts[1:])`: the first component dropped, the rest kept in order. */
  function BundledPath(bundledResources: Path, relative: string): (r: Path)
    requires UnderResources(relative)
    ensures r == bundledResources + Parts(relative)[1..]
  {
    var parts := Parts(relative);
    PartsWellFormed(relative);
    assert !IsAbsolute(parts[1..]) by {
      if |parts| > 1 {
        assert parts[1..][0] == parts[1];
      }
    }
    Join(bundledResources, parts[1..])
  }

  /**
    `get_resource_path`: the dev path when it is a file; otherwise the
    bundled path when the text starts with "resources" and that is a file;
    otherwise the dev path again, after a warning.
   */
  function GetResourcePath(projectRoot: Path, bundledResources: Path, isFile: set<Path>, relative: string): (r: Resolution)
    ensures DevPath(projectRoot, relative) in isFile ==>
      r == Resolution(DevPath(projectRoot, relative), false)
    ensures (DevPath(projectRoot, relative) !in isFile && UnderResources(relative)
             && BundledPath(bundledResources, relative) in isFile) ==>
      r == Resolution(BundledPath(bundledResources, relative), false)
    ensures !UnderResources(relative) ==> r.path == DevPath(projectRoot, relative)
    ensures r.path == DevPath(projectRoot, relative)
      || (UnderResources(relative) && r.path == BundledPath(bundledResources, relative))
    ensures r.warned <==> r.path !in isFile
  {
    var dev := DevPath(projectRoot, relative);
    if dev in isFile then Resolution(dev, false)
    else if UnderResources(relative) && BundledPath(bundledResources, relative) in isFile then
      Resolution(BundledPath(bundledResources, relative), false)
    else Resolution(dev, true)
  }

  /** A file is found exactly when one of the two candidates is a file; otherwise the dev path comes back with a warning. */
  lemma ResolutionFindsFile(projectRoot: Path, bundledResources: Path, isFile: set<Path>, relative: string)
    ensures var r := GetResourcePath(projectRoot, bundledResources, isFile, relative);
      (r.path in isFile) <==>
        (DevPath(projectRoot, relative) in isFile
         || (UnderResources(relative) && BundledPath(bundledResources, relative) in isFile))
    ensures var r := GetResourcePath(projectRoot, bundledResources, isFile, relative);
      r.warned ==> r.path == DevPath(projectRoot, relative)
  {
  }

  /** A text that is absolute never uses the bundled directory: its first component is the root. */
  lemma AbsoluteTextIsDevOnly(projectRoot: Path, bundledResources: Path, isFile: set<Path>, relative: string)
    requires |relative| > 0 && relative[0] == '/'
    ensures GetResourcePath(projectRoot, bundledResources, isFile, relative).path == Parts(relative)
  {
    PartsWellFormed(relative);
  }

  const SplashText := "resources/images/foundry-splash.png"
  const LogoText := "resources/icons/foundry-logo.png"

  /** The components of "resources/<dir>/<file>" when neither name holds a slash or is empty. */
  lemma ThreeParts(dir: string, file: string)
    requires '/' !in dir && '/' !in file && IsName(dir) && IsName(file)
    ensures Parts(ResourcesDir + "/" + dir + "/" + file) == [ResourcesDir, dir, file]
  {
    assert JoinOnSlash([ResourcesDir, dir, file]) == ResourcesDir + "/" + dir + "/" + file by {
      assert [ResourcesDir, dir, file][1..] == [dir, file];
      assert [dir, file][1..] == [file];
      assert JoinOnSlash([file]) == file;
      assert JoinOnSlash([dir, file]) == dir + "/" + file;
      assert JoinOnSlash([ResourcesDir, dir, file]) == ResourcesDir + "/" + (dir + "/" + file);
    }
    PartsOfNames([ResourcesDir, dir, file]);
  }

  /**
    A fixed resource "resources/<dir>/<file>": the project copy when it is a
    file, else the bundled copy under <dir>/<file> when that is a file, else
    the project path with a warning.
   */
  lemma FixedResource(projectRoot: Path, bundledResources: Path, isFile: set<Path>, dir: string, file: string)
    requires '/' !in dir && '/' !in file && IsName(dir) && IsName(file)
    ensures var r := GetResourcePath(projectRoot, bundledResources, isFile, ResourcesDir + "/" + dir + "/" + file);
      var dev := projectRoot + [ResourcesDir, dir, file];
      var bundled := bundledResources + [dir, file];
      && (dev in isFile ==> r == Resolution(dev, false))
      && (dev !in isFile && bundled in isFile ==> r == Resolution(bundled, false))
      && (dev !in isFile && bundled !in isFile ==> r == Resolution(dev, true))
  {
    var text := ResourcesDir + "/" + dir + "/" + file;
    ThreeParts(dir, file);
    assert !IsAbsolute([ResourcesDir, dir, file]);
    assert DevPath(projectRoot, text) == projectRoot + [ResourcesDir, dir, file];
    assert UnderResources(text);
    assert [ResourcesDir, dir, file][1..] == [dir, file];
    assert BundledPath(bundledResources, text) == bundledResources + [dir, file];
  }

  /**
    `splash_image_path`: the splash image under the project's resources
    folder, else the bundled copy, else the project path with a warning.
   */
  function SplashImagePath(projectRoot: Path, bundledResources: Path, isFile: set<Path>): (r: Resolution)
    ensures var dev := projectRoot + [ResourcesDir, "images", "foundry-splash.png"];
      var bundled := bundledResources + ["images", "foundry-splash.png"];
      && (dev in isFile ==> r == Resolution(dev, false))
      && (dev !in isFile && bundled in isFile ==> r == Resolution(bundled, false))
      && (dev !in isFile && bundled !in isFile ==> r == Resolution(dev, true))
  {
    assert SplashText == ResourcesDir + "/" + "images" + "/" + "foundry-splash.png";
    FixedResource(projectRoot, bundledResources, isFile, "images", "foundry-splash.png");
    GetResourcePath(projectRoot, bundledResources, isFile, SplashText)
  }

  /**
    `logo_icon_path`: the logo under the project's resources folder, else
    the bundled copy, else the project path with a warning.
   */
  function LogoIconPath(projectRoot: Path, bundledResources: Path, isFile: set<Path>): (r: Resolution)
    ensures var dev := projectRoot + [ResourcesDir, "icons", "foundry-logo.png"];
      var bundled := bundledResources + ["icons", "foundry-logo.png"];
      && (dev in isFile ==> r == Resolution(dev, false))
      && (dev !in isFile && bundled in isFile ==> r == Resolution(bundled, false))
      && (dev !in isFile && bundled !in isFile ==> r == Resolution(dev, true))
  {
    assert LogoText == ResourcesDir + "/" + "icons" + "/" + "foundry-logo.png";
    FixedResource(projectRoot, bundledResources, isFile, "icons", "foundry-logo.png");
    GetResourcePath(projectRoot, bundledResources, isFile, LogoText)
  }
}
