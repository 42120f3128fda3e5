/**
 * The file-system facts the scripts consult, passed in as values: the lines
 * of the sketch, Windows path joining, the sketch's stem, and the check that
 * every required artifact exists.
 */
module FileSystem {

  import opened Wrappers
  import opened PyStr

  /**
   * What reading the sketch yielded: the lines read, and whether reading
   * raised (when opening fails, `lines` is empty).
   */
  datatype SourceFile = SourceFile(lines: seq<string>, failed: bool)

  /**
   * `os.path.join(dir, name)` on Windows for a relative file name: a
   * backslash goes between the two unless `dir` is empty or already ends in
   * a separator or a drive colon.
   */
  function Join(dir: string, name: string): (r: string)
    ensures dir <= r && EndsWith(r, name)
  {
    if dir == [] || dir[|dir| - 1] in "\\/:" then dir + name else dir + "\\" + name
  }

  /** The index of the last `.` in `s`, if any. */
  function LastDot(s: string): (r: Option<nat>)
    ensures r.Some? ==> r.value < |s| && s[r.value] == '.' && '.' !in s[r.value + 1..]
    ensures r.None? ==> '.' !in s
  {
    if s == [] then None
    else if s[|s| - 1] == '.' then Some(|s| - 1)
    else LastDot(s[..|s| - 1])
  }

  /**
   * `os.path.splitext(name)[0]` for a bare file name: cut at the last dot,
   * unless only dots precede it (a leading-dot name has no extension).
   */
  function Stem(name: string): (r: string)
    ensures r <= name
  {
    match LastDot(name)
    case None => name
    case Some(i) => if exists j :: 0 <= j < i && name[j] != '.' then name[..i] else name
  }

  /** A sketch file `<b>.ino` has stem `<b>` as long as `b` is not all dots. */
  lemma StemOfIno(b: string, j: nat)
    requires j < |b| && b[j] != '.'
    ensures Stem(b + ".ino") == b
  {
    var s := b + ".ino";
    assert s[|b|] == '.' && s[|b| + 1..] == "ino";
    assert LastDot(s[..|s| - 1]) == LastDot(s[..|s| - 2]) == LastDot(s[..|s| - 3]);
    assert s[..|s| - 3][..|b|] == b;
    assert s[j] == b[j];
  }

  /** The first path, in order, that is not among the existing ones. */
  function FirstAbsent(paths: seq<string>, existing: set<string>): (r: Option<string>)
    ensures r.None? <==> forall i :: 0 <= i < |paths| ==> paths[i] in existing
    ensures r.Some? ==>
      exists k :: 0 <= k < |paths| && paths[k] == r.value && r.value !in existing
        && forall j :: 0 <= j < k ==> paths[j] in existing
  {
    if paths == [] then None
    else if paths[0] !in existing then Some(paths[0])
    else
      var r := FirstAbsent(paths[1..], existing);
      if r.Some? then
        var k :| 0 <= k < |paths| - 1 && paths[1..][k] == r.value && r.value !in existing
          && forall j :: 0 <= j < k ==> paths[1..][j] in existing;
        assert paths[k + 1] == r.value;
        assert forall j :: 1 <= j < k + 1 ==> paths[j] == paths[1..][j - 1];
        r
      else
        r
  }

  /**
   * The existence check both `merge_bin`s run before building a command:
   * the loop stops at the first path that does not exist.
   */
  method FirstMissing(paths: seq<string>, existing: set<string>) returns (missing: Option<string>)
    ensures missing == FirstAbsent(paths, existing)
  {
    var i := 0;
    while i < |paths|
      invariant 0 <= i <= |paths|
      invariant FirstAbsent(paths, existing) == FirstAbsent(paths[i..], existing)
    {
      if paths[i] !in existing {
        return Some(paths[i]);
      }
      assert paths[i..][1..] == paths[i + 1..];
      i := i + 1;
    }
    return None;
  }
}
