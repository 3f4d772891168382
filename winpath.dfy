/** The Windows path rules (`ntpath`) the programs rely on: `dirname` being empty,
    `isabs` and `join` onto the default folder. */
module WinPath {
  import opened PyStrings

  type Path = string

  predicate IsSep(c: char) { c == '\\' || c == '/' }

  /** `os.path.dirname(p) != ""`: `p` starts with a drive (`X:`) or holds a separator. */
  predicate HasDirectoryPart(p: Path) {
    (|p| >= 2 && p[1] == ':') || exists i :: 0 <= i < |p| && IsSep(p[i])
  }

  /** `os.path.isabs(p)` on Windows up to Python 3.12: a leading separator, or a drive
      followed by a separator. */
  predicate IsAbs(p: Path) {
    (|p| >= 1 && IsSep(p[0])) || (|p| >= 3 && p[1] == ':' && IsSep(p[2]))
  }

  predicate HasDrive(p: Path) { |p| >= 2 && p[1] == ':' }

  const Drive: Path := "C:"

  /** `DEFAULT_FOLDER` */
  const DefaultFolder: Path := Drive + "\\SwissRE\\DynamicSeries\\Pandas_Select"

  /** `os.path.join(DEFAULT_FOLDER, p)` for a relative `p`: a drive other than `C:` (compared
      without case) discards the folder; otherwise the folder, a separator and the rest of
      `p` after its drive, under `p`'s spelling of the drive if it has one. */
  function JoinDefault(p: Path): (r: Path)
    requires !IsAbs(p)
  {
    if HasDrive(p) && LowerStr(p[..2]) != LowerStr(Drive) then p
    else
      var drive := if HasDrive(p) then p[..2] else Drive;
      var rest := if HasDrive(p) then p[2..] else p;
      drive + DefaultFolder[2..] + "\\" + rest
  }

  /** `input_file if os.path.isabs(input_file) else os.path.join(DEFAULT_FOLDER, input_file)` */
  function ResolveInput(p: Path): (r: Path)
    ensures IsAbs(p) ==> r == p
    ensures !IsAbs(p) && !HasDrive(p) ==> r == DefaultFolder + "\\" + p
    ensures !HasDrive(p) ==> IsAbs(r)
  {
    if IsAbs(p) then p
    else
      assert DefaultFolder[2] == '\\';
      JoinDefault(p)
  }

  /** `os.path.join(DEFAULT_FOLDER, name)` for a plain file name. */
  function InDefaultFolder(name: string): Path {
    DefaultFolder + "\\" + name
  }

  /** Every path built in the default folder has a directory part, so the engine's
      `os.makedirs` step never receives an empty name for it. */
  lemma DefaultFolderPaths(name: string)
    ensures HasDirectoryPart(InDefaultFolder(name)) && IsAbs(InDefaultFolder(name))
  {
    assert InDefaultFolder(name)[1] == Drive[1];
    assert InDefaultFolder(name)[2] == '\\';
  }

  /** A relative path on another drive is used as it is. */
  lemma OtherDriveKept()
    ensures ResolveInput("D:notes.txt") == "D:notes.txt"
  {
    assert !IsAbs("D:notes.txt");
    assert "D:notes.txt"[..2] == "D:";
    assert LowerStr("D:") != LowerStr(Drive) by {
      assert LowerStr("D:")[0] == 'd';
    }
  }
}
