/**
 * File-extension handling of the installer and tool handlers: the Windows
 * `os.path.splitext` extension, and the installer and tool kinds inferred
 * from it when the operation does not name one.
 */
module Paths {
  import opened Wrappers
  import Text

  /** Path separators of Windows paths (`ntpath`): backslash and slash. */
  predicate IsSep(c: char)
  {
    c == '\\' || c == '/'
  }

  /** Index of the last separator in `p`, or -1 when there is none. */
  function LastSep(p: string): (i: int)
    ensures -1 <= i < |p|
    ensures i >= 0 ==> IsSep(p[i])
    ensures forall j :: i < j < |p| ==> !IsSep(p[j])
  {
    if p == [] then -1
    else if IsSep(p[|p| - 1]) then |p| - 1
    else LastSep(p[..|p| - 1])
  }

  /** Index of the last dot in `p`, or -1 when there is none. */
  function LastDot(p: string): (i: int)
    ensures -1 <= i < |p|
    ensures i >= 0 ==> p[i] == '.'
    ensures forall j :: i < j < |p| ==> p[j] != '.'
  {
    if p == [] then -1
    else if p[|p| - 1] == '.' then |p| - 1
    else LastDot(p[..|p| - 1])
  }

  predicate OnlyDots(t: string)
  {
    forall i :: 0 <= i < |t| ==> t[i] == '.'
  }

  /**
   * `os.path.splitext(p)[1]` for Windows paths: from the last dot of the last
   * path component to the end, unless that dot is preceded in its component
   * by dots only (a name such as `.profile` has no extension).
   */
  function Extension(p: string): (e: string)
    ensures |e| <= |p| && e == p[|p| - |e|..]
    ensures e == [] || e[0] == '.'
    ensures forall i :: 0 < i < |e| ==> e[i] != '.' && !IsSep(e[i])
  {
    var s := LastSep(p);
    var d := LastDot(p);
    if d > s && !OnlyDots(p[s + 1..d]) then p[d..] else []
  }

  /** The shape of a file name `stem.x` whose stem ends in an ordinary character. */
  predicate NameShape(stem: string, x: string)
  {
    && stem != [] && stem[|stem| - 1] != '.' && !IsSep(stem[|stem| - 1])
    && forall i :: 0 <= i < |x| ==> x[i] != '.' && !IsSep(x[i])
  }

  lemma LastDotOfName(stem: string, x: string, p: string)
    requires NameShape(stem, x) && p == stem + "." + x
    ensures LastDot(p) == |stem|
  {
    var n := |stem|;
    assert p[n] == '.';
    forall j | n < j < |p|
      ensures p[j] != '.'
    {
      assert p[j] == x[j - n - 1];
    }
  }

  lemma LastSepOfName(stem: string, x: string, p: string)
    requires NameShape(stem, x) && p == stem + "." + x
    ensures LastSep(p) < |stem| - 1
  {
    var n := |stem|;
    forall j | n - 1 <= j < |p|
      ensures !IsSep(p[j])
    {
      if j == n - 1 {
        assert p[j] == stem[n - 1];
      } else if j > n {
        assert p[j] == x[j - n - 1];
      }
    }
  }

  /** A file name `stem.x` whose stem ends in an ordinary character has extension `.x`. */
  lemma ExtensionOfName(stem: string, x: string)
    requires NameShape(stem, x)
    ensures Extension(stem + "." + x) == "." + x
  {
    var p := stem + "." + x;
    var n := |stem|;
    LastDotOfName(stem, x, p);
    LastSepOfName(stem, x, p);
    var s := LastSep(p);
    var between := p[s + 1..n];
    assert between[|between| - 1] == stem[n - 1];
    assert !OnlyDots(between);
    assert p[n..] == "." + x;
  }

  /** A path whose last component holds no dot has no extension. */
  lemma NoDotNoExtension(p: string)
    requires forall i :: LastSep(p) < i < |p| ==> p[i] != '.'
    ensures Extension(p) == []
  {
  }

  /**
   * A last component made of dots and then one dotted part, such as `.msi` or
   * `..msi`, has no extension: its last dot is preceded by dots only.
   */
  lemma LeadingDotsNoExtension(dir: string, dots: string, x: string)
    requires dir == [] || IsSep(dir[|dir| - 1])
    requires OnlyDots(dots)
    requires forall i :: 0 <= i < |x| ==> x[i] != '.' && !IsSep(x[i])
    ensures Extension(dir + dots + "." + x) == []
  {
    var p := dir + dots + "." + x;
    var n := |dir| + |dots|;
    assert p[n] == '.';
    forall j | n < j < |p|
      ensures p[j] != '.' && !IsSep(p[j])
    {
      assert p[j] == x[j - n - 1];
    }
    forall j | |dir| <= j <= n
      ensures p[j] == '.'
    {
      if j < n {
        assert p[j] == dots[j - |dir|];
      }
    }
    assert LastDot(p) == n;
    if dir != [] {
      assert IsSep(p[|dir| - 1]);
    }
    assert LastSep(p) == |dir| - 1;
    assert p[|dir|..n] == dots;
  }

  lemma LastDotIs(p: string, n: nat)
    requires n < |p| && p[n] == '.'
    requires forall k :: n < k < |p| ==> p[k] != '.'
    ensures LastDot(p) == n
  {
  }

  lemma LastSepBefore(p: string, j: nat)
    requires forall k :: j <= k < |p| ==> !IsSep(p[k])
    ensures LastSep(p) < j
  {
  }

  /**
   * A name `stem.x` whose last component has an ordinary character before the
   * final dot has extension `.x`, even when the stem itself ends in dots
   * (`a..msi` has extension `.msi`).
   */
  lemma ExtensionAfterDottedStem(stem: string, x: string, j: nat)
    requires j < |stem| && stem[j] != '.'
    requires forall k :: j <= k < |stem| ==> !IsSep(stem[k])
    requires forall i :: 0 <= i < |x| ==> x[i] != '.' && !IsSep(x[i])
    ensures Extension(stem + "." + x) == "." + x
  {
    var p := stem + "." + x;
    var n := |stem|;
    forall k | n < k < |p|
      ensures p[k] != '.' && !IsSep(p[k])
    {
      assert p[k] == x[k - n - 1];
    }
    LastDotIs(p, n);
    forall k | j <= k < |p|
      ensures !IsSep(p[k])
    {
      if k < n {
        assert p[k] == stem[k];
      }
    }
    LastSepBefore(p, j);
    var s := LastSep(p);
    assert p[s + 1..n][j - s - 1] == stem[j];
    assert p[n..] == "." + x;
  }

  /** Installer kinds handled by `run_installer`. */
  datatype InstallerKind = Msi | Msix | ExeInstaller

  /**
   * The installer type `run_installer` works with: the given one unless it is
   * missing or empty, otherwise `msi`, `msix` or `exe` from the lower-cased
   * extension of the path.
   */
  function InstallerType(given: Option<string>, path: string): (t: string)
    ensures given.Some? && given.value != "" ==> t == given.value
    ensures given.None? || given.value == "" ==> t == "msi" || t == "msix" || t == "exe"
  {
    if given.None? || given.value == "" then
      var ext := Text.Lower(Extension(path));
      if ext == ".msi" then "msi" else if ext == ".msix" then "msix" else "exe"
    else given.value
  }

  /** The command branch taken for an installer type; every other type runs as an executable. */
  function InstallerKindOf(t: string): InstallerKind
  {
    if t == "msi" then Msi else if t == "msix" then Msix else ExeInstaller
  }

  lemma LowerDot(x: string)
    ensures Text.Lower("." + x) == "." + Text.Lower(x)
  {
    assert forall i :: 0 <= i < |x| + 1 ==> Text.Lower("." + x)[i] == ("." + Text.Lower(x))[i];
  }

  /** Inference from a file name `stem.x`: `.msi` and `.msix` in any letter case, anything else an executable. */
  lemma InferredInstallerKind(stem: string, x: string)
    requires NameShape(stem, x)
    ensures InstallerKindOf(InstallerType(None, stem + "." + x)) ==
      if Text.Lower(x) == "msi" then Msi else if Text.Lower(x) == "msix" then Msix else ExeInstaller
  {
    ExtensionOfName(stem, x);
    LowerDot(x);
    var lx := Text.Lower(x);
    assert ("." + lx == ".msi") == (lx == "msi") by {
      if "." + lx == ".msi" { assert lx == ("." + lx)[1..]; }
    }
    assert ("." + lx == ".msix") == (lx == "msix") by {
      if "." + lx == ".msix" { assert lx == ("." + lx)[1..]; }
    }
  }

  /** A path without an extension, and no given type, runs as an executable installer. */
  lemma NoExtensionInstaller(p: string)
    requires Extension(p) == []
    ensures InstallerKindOf(InstallerType(None, p)) == ExeInstaller
  {
  }

  /** Tool kinds handled by `run_tool`. */
  datatype ToolKind = PowerShellScript | BatchFile | ExeTool

  /**
   * The tool type `run_tool` works with: the given one unless it is missing
   * or empty, otherwise the lower-cased extension without its leading dot.
   */
  function ToolType(given: Option<string>, path: string): (t: string)
    ensures given.Some? && given.value != "" ==> t == given.value
    ensures given.None? || given.value == "" ==> '.' !in t && |t| <= |path|
  {
    if given.None? || given.value == "" then
      var ext := Text.Lower(Extension(path));
      if |ext| > 0 && ext[0] == '.' then ext[1..] else ext
    else given.value
  }

  /** The command branch taken for a tool type: `ps1` a script, `bat` or `cmd` a batch file, anything else an executable. */
  function ToolKindOf(t: string): ToolKind
  {
    if t == "ps1" then PowerShellScript else if t == "bat" || t == "cmd" then BatchFile else ExeTool
  }

  /** Inference from a file name `stem.x`: the type is `x` lower-cased, with the dot stripped. */
  lemma InferredToolType(stem: string, x: string)
    requires NameShape(stem, x)
    ensures ToolType(None, stem + "." + x) == Text.Lower(x)
    ensures ToolKindOf(ToolType(None, stem + "." + x)) ==
      if Text.Lower(x) == "ps1" then PowerShellScript
      else if Text.Lower(x) == "bat" || Text.Lower(x) == "cmd" then BatchFile
      else ExeTool
  {
    ExtensionOfName(stem, x);
    LowerDot(x);
    assert ("." + Text.Lower(x))[1..] == Text.Lower(x);
  }
}
