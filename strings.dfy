/** The JavaScript string operations the core relies on (`startsWith`,
    `endsWith`, `includes`, `toLowerCase`, `trim`, `split`), over `seq<char>`. */
module Strings {

  /** `s.startsWith(prefix)` */
  predicate StartsWith(s: string, prefix: string) {
    |prefix| <= |s| && s[..|prefix|] == prefix
  }

  /** `s.endsWith(suffix)` */
  predicate EndsWith(s: string, suffix: string) {
    |suffix| <= |s| && s[|s| - |suffix|..] == suffix
  }

  /** `s.includes(t)`: `t` occurs at some position of `s`. */
  predicate Contains(s: string, t: string) {
    exists i :: 0 <= i <= |s| && StartsWith(s[i..], t)
  }

  /** Case folding of one character; only the ASCII letters are folded. */
  function LowerChar(c: char): char {
    if 'A' <= c <= 'Z' then (c as int + 32) as char else c
  }

  /** `s.toLowerCase()`, character by character. */
  function Lower(s: string): (r: string)
    ensures |r| == |s|
    ensures forall i :: 0 <= i < |s| ==> r[i] == LowerChar(s[i])
  {
    if s == [] then [] else [LowerChar(s[0])] + Lower(s[1..])
  }

  /** A lower-cased string has no upper-case letter left. */
  predicate IsLower(s: string) {
    forall i :: 0 <= i < |s| ==> LowerChar(s[i]) == s[i]
  }

  lemma LowerIsLower(s: string)
    ensures IsLower(Lower(s))
    ensures Lower(Lower(s)) == Lower(s)
  {
  }

  lemma LowerOfLower(s: string)
    requires IsLower(s)
    ensures Lower(s) == s
  {
  }

  /** The characters `trim` removes: the ASCII white space, the no-break
      space and the byte-order mark. */
  predicate IsSpace(c: char) {
    c == ' ' || c == '\t' || c == '\n' || c == '\r' || c == '\U{0B}' || c == '\U{0C}'
    || c == '\U{A0}' || c == '\U{FEFF}'
  }

  function TrimStart(s: string): (r: string)
    ensures |r| <= |s| && r == s[|s| - |r|..]
    ensures r == [] || !IsSpace(r[0])
    ensures forall i :: 0 <= i < |s| - |r| ==> IsSpace(s[i])
  {
    if s != [] && IsSpace(s[0]) then TrimStart(s[1..]) else s
  }

  function TrimEnd(s: string): (r: string)
    ensures |r| <= |s| && r == s[..|r|]
    ensures r == [] || !IsSpace(r[|r| - 1])
    ensures forall i :: |r| <= i < |s| ==> IsSpace(s[i])
  {
    if s != [] && IsSpace(s[|s| - 1]) then TrimEnd(s[..|s| - 1]) else s
  }

  /** `s.trim()` */
  function Trim(s: string): string {
    TrimEnd(TrimStart(s))
  }

  /** `s.trim()` is empty exactly when `s` is white space only. */
  lemma TrimEmptyIff(s: string)
    ensures Trim(s) == [] <==> forall i :: 0 <= i < |s| ==> IsSpace(s[i])
  {
    var t := TrimStart(s);
    if t != [] {
      assert !IsSpace(t[0]) && s[|s| - |t|] == t[0];
      assert TrimEnd(t) != [];
    }
  }

  /** The position of the first `c` in `s`. */
  function IndexOf(s: string, c: char): (i: nat)
    requires c in s
    ensures i < |s| && s[i] == c && c !in s[..i]
  {
    if s[0] == c then 0 else 1 + IndexOf(s[1..], c)
  }

  /** `s.split(sep)` for a one-character separator: the fields between
      separators, empty ones included; a string without `sep` is one field. */
  function Split(s: string, sep: char): (parts: seq<string>)
    ensures |parts| >= 1
    ensures forall k :: 0 <= k < |parts| ==> sep !in parts[k]
    decreases |s|
  {
    if sep !in s then [s]
    else
      var i := IndexOf(s, sep);
      [s[..i]] + Split(s[i + 1..], sep)
  }

  /** `parts.join(sep)` */
  function JoinWith(parts: seq<string>, sep: char): string {
    if parts == [] then []
    else if |parts| == 1 then parts[0]
    else parts[0] + [sep] + JoinWith(parts[1..], sep)
  }

  /** Splitting loses nothing: joining the fields back gives the string. */
  lemma {:induction false} SplitJoin(s: string, sep: char)
    ensures JoinWith(Split(s, sep), sep) == s
    decreases |s|
  {
    if sep in s {
      var i := IndexOf(s, sep);
      SplitJoin(s[i + 1..], sep);
      assert s == s[..i] + [sep] + s[i + 1..];
    }
  }

  /** `s[i..j]` is `w` and is delimited by `sep` or the ends of `s`. */
  ghost predicate FieldAt(s: string, sep: char, w: string, i: int, j: int) {
    0 <= i <= j <= |s| && s[i..j] == w
    && (i == 0 || s[i - 1] == sep) && (j == |s| || s[j] == sep)
  }

  /** `w` is a whole `sep`-delimited field of `s`: it starts at the beginning
      of `s` or right after a `sep`, ends at the end of `s` or right before a
      `sep`, and holds no `sep` itself. */
  ghost predicate IsField(s: string, sep: char, w: string) {
    sep !in w && exists i, j :: FieldAt(s, sep, w, i, j)
  }

  /** The fields `Split` returns are exactly the delimited fields of `s`. */
  lemma SplitFields(s: string, sep: char, w: string)
    ensures w in Split(s, sep) <==> IsField(s, sep, w)
  {
    if w in Split(s, sep) { SplitGivesFields(s, sep, w); }
    if IsField(s, sep, w) { FieldsAreSplit(s, sep, w); }
  }

  /** A field of the rest after the first separator is a field of `s`. */
  lemma FieldAfterFirst(s: string, sep: char, w: string, i: int, j: int)
    requires sep in s
    requires FieldAt(s[IndexOf(s, sep) + 1..], sep, w, i, j)
    ensures FieldAt(s, sep, w, i + IndexOf(s, sep) + 1, j + IndexOf(s, sep) + 1)
  {
  }

  lemma {:induction false} SplitGivesFields(s: string, sep: char, w: string)
    requires w in Split(s, sep)
    ensures IsField(s, sep, w)
    decreases |s|
  {
    if sep !in s {
      assert s[0..|s|] == w;
      assert FieldAt(s, sep, w, 0, |s|);
    } else {
      var k := IndexOf(s, sep);
      var t := s[k + 1..];
      assert Split(s, sep) == [s[..k]] + Split(t, sep);
      if w == s[..k] {
        assert s[0..k] == w;
        assert FieldAt(s, sep, w, 0, k);
      } else {
        assert w in Split(t, sep);
        SplitGivesFields(t, sep, w);
        var i, j :| FieldAt(t, sep, w, i, j);
        FieldAfterFirst(s, sep, w, i, j);
      }
    }
  }

  /** A field that starts before the first separator is the first field. */
  lemma FirstField(s: string, sep: char, w: string, i: int, j: int)
    requires sep in s && sep !in w
    requires FieldAt(s, sep, w, i, j)
    requires i <= IndexOf(s, sep)
    ensures w == s[..IndexOf(s, sep)]
  {
    var k := IndexOf(s, sep);
    forall m | 0 <= m < k ensures s[m] != sep {
      assert s[..k][m] == s[m];
    }
    forall m | i <= m < j ensures s[m] != sep {
      assert w[m - i] == s[m];
    }
  }

  /** A field that starts after the first separator is a field of the rest. */
  lemma FieldBeyondFirst(s: string, sep: char, w: string, i: int, j: int)
    requires sep in s
    requires FieldAt(s, sep, w, i, j)
    requires i > IndexOf(s, sep)
    ensures FieldAt(s[IndexOf(s, sep) + 1..], sep, w, i - IndexOf(s, sep) - 1, j - IndexOf(s, sep) - 1)
  {
  }

  lemma {:induction false} FieldsAreSplit(s: string, sep: char, w: string)
    requires IsField(s, sep, w)
    ensures w in Split(s, sep)
    decreases |s|
  {
    var i, j :| FieldAt(s, sep, w, i, j);
    if sep !in s {
      assert forall m :: 0 <= m < |s| ==> s[m] != sep;
      assert i == 0 && j == |s|;
      assert s[0..|s|] == s;
    } else {
      var k := IndexOf(s, sep);
      var t := s[k + 1..];
      assert Split(s, sep) == [s[..k]] + Split(t, sep);
      if i <= k {
        FirstField(s, sep, w, i, j);
      } else {
        FieldBeyondFirst(s, sep, w, i, j);
        FieldsAreSplit(t, sep, w);
      }
    }
  }
}
