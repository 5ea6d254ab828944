/** The editor window's title and default size. A single entry's title shows its
    path with the home directory abbreviated to `~`, other users' home
    directories to `~user` and the superuser's to `~root`. */
module Title {
  import opened Metadata

  const GenericTitle := "Annotations"
  const SharedTitle := "Annotations shared between multiple files"
  /** Shown instead of a path when the entry has no local path. */
  const Unresolved := "???"
  /** EN SPACE, EN DASH, EN SPACE */
  const Separator := "\U{2002}\U{2013}\U{2002}"

  /** The current user's home directory is known, non-empty and a (plain string)
      prefix of the path. */
  predicate HomeApplies(path: string, home: Option<string>) {
    home.Some? && home.value != [] && home.value <= path
  }

  /** The paths the rewrite is defined on: a path equal to "/home" that the home
      directory test does not catch would have its terminator overwritten. */
  predicate Abbreviable(path: string, home: Option<string>) {
    HomeApplies(path, home) || path != "/home"
  }

  /** The title of a selection is defined: a single entry's path can be
      abbreviated. */
  predicate TitleDefined(files: seq<Entry>, home: Option<string>) {
    |files| == 1 && files[0].path.Some? ==> Abbreviable(files[0].path.value, home)
  }

  /** The shown path. Every prefix test is a plain string prefix test, with no
      regard for path-component boundaries. */
  function ShownPath(path: string, home: Option<string>): string
    requires Abbreviable(path, home)
  {
    if HomeApplies(path, home) then "~" + path[|home.value|..]
    else if "/home" <= path then "~" + path[6..]
    else if "/root" <= path then "~" + path[1..]
    else path
  }

  /** `rest` starts with the user name "root". */
  predicate NamesRoot(rest: string) {
    rest == "root" || "root/" <= rest
  }

  /** Tilde expansion under the convention that user directories live at
      /home/<user> and the superuser's at /root, the reading a user gives the
      title: `~` and `~/…` name the home directory, `~root…` the superuser's,
      `~user…` a directory under /home. (A shell looks `~user` up in the password
      database instead.) */
  function Expand(shown: string, home: Option<string>): string {
    if shown == [] || shown[0] != '~' then shown
    else
      var rest := shown[1..];
      if (rest == [] || rest[0] == '/') && home.Some? then home.value + rest
      else if NamesRoot(rest) then "/" + rest
      else "/home/" + rest
  }

  predicate AtBoundary(path: string, n: nat) {
    n == |path| || (n < |path| && path[n] == '/')
  }

  /** The absolute paths whose abbreviation can be read back: the prefix that
      triggers a rewrite ends at a path-component boundary, and a user directory
      under /home is not called "root". */
  predicate Unambiguous(path: string, home: Option<string>) {
    path != [] && path[0] == '/' && path != "/home" &&
    if HomeApplies(path, home) then AtBoundary(path, |home.value|)
    else if "/home" <= path then |path| > 6 && path[5] == '/' && path[6] != '/' && !NamesRoot(path[6..])
    else if "/root" <= path then AtBoundary(path, 5)
    else true
  }

  /** The abbreviation loses nothing on unambiguous paths: expanding the shown
      path gives back the original. */
  lemma AbbreviationRoundTrip(path: string, home: Option<string>)
    requires Unambiguous(path, home)
    ensures Expand(ShownPath(path, home), home) == path
  {
  }

  /** The prefix tests ignore component boundaries: "/homework/notes" is shown as
      "~ork/notes", which reads as a directory under /home. */
  lemma PrefixWithoutBoundary()
    ensures ShownPath("/homework/notes", None) == "~ork/notes"
    ensures Expand("~ork/notes", None) == "/home/ork/notes"
  {
    assert "/home" <= "/homework/notes";
    assert "/homework/notes"[6..] == "ork/notes";
    assert "~ork/notes"[1..] == "ork/notes" && "ork/notes"[0] != "root/"[0];
  }

  /** A user directory called "root" under /home is shown as `~root`, the same
      title as the superuser's home directory, and reads back as /root. */
  lemma RootUserCollision()
    ensures ShownPath("/home/root/x", Some("/home/lisa")) == "~root/x"
    ensures ShownPath("/root/x", Some("/home/lisa")) == "~root/x"
    ensures Expand("~root/x", Some("/home/lisa")) == "/root/x"
  {
    assert !HomeApplies("/home/root/x", Some("/home/lisa")) by {
      assert "/home/lisa"[6] != "/home/root/x"[6];
    }
    assert "/home" <= "/home/root/x";
    assert "/home/root/x"[6..] == "root/x";
    SuperuserExample();
    assert "~root/x"[1..] == "root/x";
    assert "root/" <= "root/x";
  }

  /** Another user's home directory is shown as `~user`. */
  lemma OtherUserExample()
    ensures ShownPath("/home/john/x", Some("/home/lisa")) == "~john/x"
  {
    assert !HomeApplies("/home/john/x", Some("/home/lisa")) by {
      assert "/home/lisa"[6] != "/home/john/x"[6];
    }
    assert "/home" <= "/home/john/x";
    assert "/home/john/x"[6..] == "john/x";
  }

  /** The superuser's home directory is shown as `~root`. */
  lemma SuperuserExample()
    ensures ShownPath("/root/x", Some("/home/lisa")) == "~root/x"
  {
    assert !HomeApplies("/root/x", Some("/home/lisa")) by {
      assert "/home/lisa"[1] != "/root/x"[1];
    }
    assert !("/home" <= "/root/x") by {
      assert "/home"[1] != "/root/x"[1];
    }
    assert "/root" <= "/root/x";
    assert "/root/x"[1..] == "root/x";
  }

  /** The current user's home directory is shown as `~`. */
  lemma OwnHomeExample()
    ensures ShownPath("/home/lisa/doc.md", Some("/home/lisa")) == "~/doc.md"
  {
    assert HomeApplies("/home/lisa/doc.md", Some("/home/lisa"));
    assert "/home/lisa/doc.md"[10..] == "/doc.md";
  }

  /** The in-place rewrite of the path buffer: the character just before the
      abbreviated tail becomes `~` and the shown path starts there. */
  method AbbreviateInPlace(fpath: array<char>, home: Option<string>) returns (shown: nat)
    requires Abbreviable(fpath[..], home)
    modifies fpath
    ensures shown <= fpath.Length
    ensures fpath[shown..] == ShownPath(old(fpath[..]), home)
  {
    shown := 0;
    if home.Some? && home.value != [] && home.value <= fpath[..] {
      shown := |home.value| - 1;
      fpath[shown] := '~';
    } else if "/home" <= fpath[..] {
      shown := 5;
      fpath[shown] := '~';
    } else if "/root" <= fpath[..] {
      fpath[0] := '~';
    } else {
      return;
    }
    assert fpath[shown..] == [fpath[shown]] + fpath[shown + 1..];
    assert fpath[shown + 1..] == old(fpath[..])[shown + 1..];
  }

  /** The title of the editor window for a selection. */
  function WindowTitle(files: seq<Entry>, home: Option<string>): string
    requires TitleDefined(files, home)
  {
    if files == [] then GenericTitle
    else if |files| > 1 then SharedTitle
    else
      var shown := match files[0].path
        case Some(p) => ShownPath(p, home)
        case None => Unresolved;
      shown + Separator + GenericTitle
  }

  /** The title computation of the editor window: a fresh copy of the path is
      abbreviated in place and joined with the separator and the generic title. */
  method ComputeTitle(files: seq<Entry>, home: Option<string>) returns (title: string)
    requires TitleDefined(files, home)
    ensures title == WindowTitle(files, home)
  {
    title := GenericTitle;
    if files != [] {
      if |files| > 1 {
        title := SharedTitle;
      } else {
        var shown: string;
        match files[0].path {
          case Some(p) =>
            var fpath := new char[|p|](i requires 0 <= i < |p| => p[i]);
            assert fpath[..] == p;
            var start := AbbreviateInPlace(fpath, home);
            shown := fpath[start..];
          case None =>
            shown := Unresolved;
        }
        title := shown + Separator + GenericTitle;
      }
    }
  }

  /** A single entry's title reads as its shown path followed by the separator and
      the generic title, and on unambiguous paths the shown part expands back to
      the entry's path. */
  lemma TitleNamesEntry(files: seq<Entry>, home: Option<string>)
    requires |files| == 1 && files[0].path.Some? && Unambiguous(files[0].path.value, home)
    ensures exists shown :: WindowTitle(files, home) == shown + Separator + GenericTitle &&
                            Expand(shown, home) == files[0].path.value
  {
    var shown := ShownPath(files[0].path.value, home);
    AbbreviationRoundTrip(files[0].path.value, home);
    assert WindowTitle(files, home) == shown + Separator + GenericTitle;
  }

  /** The default size of the editor window: two thirds of the monitor's work
      area in integer arithmetic, or 300 by 400 when the work area is unknown
      (zero). */
  function DefaultSize(width: nat, height: nat): (size: (nat, nat))
    ensures width == 0 ==> size.0 == 300
    ensures width > 0 ==> 3 * size.0 <= 2 * width < 3 * size.0 + 3
    ensures height == 0 ==> size.1 == 400
    ensures height > 0 ==> 3 * size.1 <= 2 * height < 3 * size.1 + 3
  {
    (if width != 0 then width * 2 / 3 else 300, if height != 0 then height * 2 / 3 else 400)
  }
}
