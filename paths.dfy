/** The pieces of Node's `path` module the main process uses (`sep`, `join`,
    `basename`, `dirname`, the root reported by `parse`), for POSIX-style
    paths and the Windows separator. */
module Paths {
  import opened Strings

  /** `process.platform`, reduced to the three cases the scan tells apart. */
  datatype Platform = Darwin | Win32 | Linux

  /** `path.sep` */
  function Sep(platform: Platform): char {
    if platform == Win32 then '\\' else '/'
  }

  /** `path.join(dir, name)` for a single entry name: one separator between
      the two parts. */
  function Join(dir: string, name: string, sep: char): string {
    if dir == [] then name
    else if dir[|dir| - 1] == sep then dir + name
    else dir + [sep] + name
  }

  /** The joined path starts with the directory and ends with the name. */
  lemma JoinEnds(dir: string, name: string, sep: char)
    ensures EndsWith(Join(dir, name, sep), name)
    ensures StartsWith(Join(dir, name, sep), dir)
  {
    var r := Join(dir, name, sep);
    if dir != [] && dir[|dir| - 1] != sep {
      assert r == dir + ([sep] + name);
    }
  }

  /** The position of the last `c` in `s`. */
  function LastIndexOf(s: string, c: char): (i: nat)
    requires c in s
    ensures i < |s| && s[i] == c && c !in s[i + 1..]
  {
    if s[|s| - 1] == c then |s| - 1
    else
      assert c in s[..|s| - 1] by {
        var k :| 0 <= k < |s| && s[k] == c;
        assert s[..|s| - 1][k] == c;
      }
      var i := LastIndexOf(s[..|s| - 1], c);
      assert s[i + 1..] == s[..|s| - 1][i + 1..] + [s[|s| - 1]];
      i
  }

  /** `path.basename(p)`: the text after the last separator. */
  function Basename(p: string, sep: char): (r: string)
    ensures sep !in r && EndsWith(p, r)
    ensures sep !in p ==> r == p
    ensures sep in p ==> |r| < |p| && p[|p| - |r| - 1] == sep
  {
    if sep !in p then p else p[LastIndexOf(p, sep) + 1..]
  }

  /** `path.dirname(p)`: the text before the last separator, the root when
      that separator is the first character, `.` when there is none. */
  function Dirname(p: string, sep: char): string {
    if sep !in p then "."
    else
      var k := LastIndexOf(p, sep);
      if k == 0 then [sep] else p[..k]
  }

  /** The root `path.parse(p)` reports on POSIX: `/` for an absolute path,
      the empty string otherwise. */
  function RootOf(p: string): string {
    if p != [] && p[0] == '/' then "/" else ""
  }

  /** `isRootPath(p)`: the path is its own root. Besides `/` this holds of
      the empty path, whose root is empty too. */
  function IsRootPath(p: string): (r: bool)
    ensures r <==> p == "/" || p == ""
  {
    RootOf(p) == p
  }

  /** An entry of a non-empty directory, joined to it, is neither a root nor
      the directory itself, and its basename is the entry name. */
  lemma JoinEntry(dir: string, name: string, sep: char)
    requires dir != [] && name != [] && sep !in name
    ensures Basename(Join(dir, name, sep), sep) == name
    ensures Join(dir, name, sep) != dir
    ensures !IsRootPath(Join(dir, name, sep))
  {
    var r := Join(dir, name, sep);
    JoinEnds(dir, name, sep);
    assert r[|r| - |name| - 1] == sep;
    assert sep in r;
    var k := LastIndexOf(r, sep);
    assert r[|r| - |name|..] == name;
    forall m | |r| - |name| <= m < |r| ensures r[m] != sep {
      assert name[m - (|r| - |name|)] == r[m];
    }
    forall m | k < m < |r| ensures r[m] != sep {
      assert r[k + 1..][m - k - 1] == r[m];
    }
    assert k == |r| - |name| - 1;
  }
}
