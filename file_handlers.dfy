/**
 * `get_file_extension` and the piece of `os.path.splitext` (POSIX flavour,
 * separator `/`) it relies on.
 */
module FileHandlers {
  import opened TextUtil

  /** `s.rfind(c)`: the last index holding `c`, or -1. */
  function LastIndex(s: string, c: char): (r: int)
    ensures -1 <= r < |s|
    ensures r >= 0 ==> s[r] == c
    ensures forall j :: r < j < |s| ==> s[j] != c
  {
    LastIndexBelow(s, c, |s|)
  }

  /** The last index below `n` holding `c`, or -1. */
  function LastIndexBelow(s: string, c: char, n: nat): (r: int)
    requires n <= |s|
    ensures -1 <= r < n
    ensures r >= 0 ==> s[r] == c
    ensures forall j :: r < j < n ==> s[j] != c
  {
    if n == 0 then -1
    else if s[n - 1] == c then n - 1
    else LastIndexBelow(s, c, n - 1)
  }

  /**
   * `os.path.splitext(p)`: the extension is everything from the last `.` of
   * the last path component on, unless that component has only dots before it.
   */
  function SplitExt(p: string): (r: (string, string))
  {
    var sep := LastIndex(p, '/');
    var dot := LastIndex(p, '.');
    if dot > sep && exists k :: sep < k < dot && p[k] != '.' then (p[..dot], p[dot..])
    else (p, "")
  }

  /** The last path component: what follows the last `/`. */
  function BaseName(p: string): string {
    p[LastIndex(p, '/') + 1..]
  }

  /**
   * `root + ext == p`, and the extension is either empty or a `.` followed by
   * neither `/` nor `.`.
   */
  lemma SplitExtParts(p: string)
    ensures SplitExt(p).0 + SplitExt(p).1 == p
    ensures var e := SplitExt(p).1;
      e == [] || (e[0] == '.' && forall j :: 1 <= j < |e| ==> e[j] != '.' && e[j] != '/')
  {
    var dot := LastIndex(p, '.');
    if SplitExt(p).1 != [] {
      assert p[..dot] + p[dot..] == p;
    }
  }

  /** `b` has a `.` with some character other than `.` before it. */
  predicate DottedName(b: string) {
    exists i, j :: 0 <= i < j < |b| && b[i] != '.' && b[j] == '.'
  }

  lemma SplitExtFoundOnlyIfDotted(p: string)
    requires SplitExt(p).1 != []
    ensures DottedName(BaseName(p))
  {
    var sep := LastIndex(p, '/');
    var dot := LastIndex(p, '.');
    var b := BaseName(p);
    var k :| sep < k < dot && p[k] != '.';
    assert b[k - sep - 1] == p[k] && b[dot - sep - 1] == p[dot];
  }

  /** A `.` at `m` in the last path component, after a character other than `.` at `k`, gives an extension. */
  lemma SplitExtFoundAt(p: string, k: int, m: int)
    requires LastIndex(p, '/') < k < m < |p| && p[k] != '.' && p[m] == '.'
    ensures SplitExt(p).1 != []
  {
    assert LastIndex(p, '.') >= m;
    SplitExtWitness(p, k);
  }

  /** Any character other than `.` between the last `/` and the last `.` makes the extension non-empty. */
  lemma SplitExtWitness(p: string, k: int)
    requires LastIndex(p, '/') < k < LastIndex(p, '.') && p[k] != '.'
    ensures SplitExt(p).1 == p[LastIndex(p, '.')..] != []
  {
  }

  lemma SplitExtFoundIfDotted(p: string)
    requires DottedName(BaseName(p))
    ensures SplitExt(p).1 != []
  {
    var k, m := DottedPositions(p);
    SplitExtFoundAt(p, k, m);
  }

  /** The two characters `DottedName` asks for, as positions in the whole path. */
  lemma DottedPositions(p: string) returns (k: int, m: int)
    requires DottedName(BaseName(p))
    ensures LastIndex(p, '/') < k < m < |p| && p[k] != '.' && p[m] == '.'
  {
    DottedShift(p, LastIndex(p, '/') + 1);
    k, m :| LastIndex(p, '/') + 1 <= k < m < |p| && p[k] != '.' && p[m] == '.';
  }

  /** `DottedName` of a suffix, read as positions of the whole text. */
  lemma DottedShift(p: string, off: nat)
    requires off <= |p| && DottedName(p[off..])
    ensures exists k, m :: off <= k < m < |p| && p[k] != '.' && p[m] == '.'
  {
    var b := p[off..];
    var i, j :| 0 <= i < j < |b| && b[i] != '.' && b[j] == '.';
    assert p[off + i] == b[i] && p[off + j] == b[j];
  }

  /** The extension is non-empty exactly when the last path component has a `.` with some other character before it. */
  lemma SplitExtFound(p: string)
    ensures SplitExt(p).1 != [] <==> DottedName(BaseName(p))
  {
    if SplitExt(p).1 != [] {
      SplitExtFoundOnlyIfDotted(p);
    }
    if DottedName(BaseName(p)) {
      SplitExtFoundIfDotted(p);
    }
  }

  /** `get_file_extension`: `file_name` is `None` when the object has no such attribute. */
  function GetFileExtension(fileType: string, fileName: Option<string>): string {
    if fileType == "photo" then ".jpg"
    else if fileType == "document" && fileName.Some? && fileName.value != "" then
      var ext := SplitExt(fileName.value).1;
      if ext != "" then ext else ".dat"
    else ".dat"
  }

  /**
   * A photo is saved as `.jpg`; a named document keeps its own extension,
   * letter case included, or gets `.dat` when it has none; anything else gets
   * `.dat`. Either way the suffix starts with a dot.
   */
  lemma GetFileExtensionSpec(fileType: string, fileName: Option<string>)
    ensures fileType == "photo" ==> GetFileExtension(fileType, fileName) == ".jpg"
    ensures fileType == "document" && fileName.Some? && SplitExt(fileName.value).1 != [] ==>
      GetFileExtension(fileType, fileName) == SplitExt(fileName.value).1
    ensures fileType != "photo" && (fileName.None? || SplitExt(fileName.value).1 == []) ==>
      GetFileExtension(fileType, fileName) == ".dat"
    ensures fileType != "photo" && fileType != "document" ==> GetFileExtension(fileType, fileName) == ".dat"
    ensures var e := GetFileExtension(fileType, fileName); e != [] && e[0] == '.'
  {
    if fileName.Some? {
      SplitExtParts(fileName.value);
      if fileName.value == "" {
        assert SplitExt(fileName.value).1 == [];
      }
    }
  }
}
