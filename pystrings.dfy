/**
 * The parts of Python's `str` that the core relies on: `isspace`, `strip`,
 * `join`, `split`, `rfind`, `rsplit(sep, 1)` and prefix slicing.
 */
module PyStrings {

  /** One character for which Python's `str.isspace` holds: the code points with the whitespace property. */
  predicate IsSpace(c: char) {
    ('\t' <= c <= '\r') || ('\U{1C}' <= c <= '\U{1F}') || c == ' ' || c == '\U{85}' || c == '\U{A0}'
    || c == '\U{1680}' || ('\U{2000}' <= c <= '\U{200A}') || c == '\U{2028}' || c == '\U{2029}'
    || c == '\U{202F}' || c == '\U{205F}' || c == '\U{3000}'
  }

  predicate AllSpace(s: string) {
    forall i :: 0 <= i < |s| ==> IsSpace(s[i])
  }

  /** Python's `s.isspace()`: false on the empty string. */
  predicate IsSpaceStr(s: string) {
    |s| > 0 && AllSpace(s)
  }

  /** The end of the run of whitespace that starts at `i`. */
  function SpaceRunEnd(s: string, i: nat): (r: nat)
    requires i <= |s|
    ensures i <= r <= |s|
    ensures forall k :: i <= k < r ==> IsSpace(s[k])
    ensures r == |s| || !IsSpace(s[r])
    decreases |s| - i
  {
    if i < |s| && IsSpace(s[i]) then SpaceRunEnd(s, i + 1) else i
  }

  /** The start of the run of whitespace that ends at `j`, going back no further than `lo`. */
  function SpaceRunStart(s: string, lo: nat, j: nat): (r: nat)
    requires lo <= j <= |s|
    ensures lo <= r <= j
    ensures forall k :: r <= k < j ==> IsSpace(s[k])
    ensures r == lo || !IsSpace(s[r - 1])
  {
    if j > lo && IsSpace(s[j - 1]) then SpaceRunStart(s, lo, j - 1) else j
  }

  /**
   * `s.strip()`: the factor `s[i..j]` of `s` with only whitespace before `i`
   * and from `j` on, and no whitespace at either of its ends.
   */
  function Strip(s: string): (r: string)
    ensures r == [] || (!IsSpace(r[0]) && !IsSpace(r[|r| - 1]))
    ensures exists i, j | 0 <= i <= j <= |s| ::
              r == s[i..j] && (forall k :: 0 <= k < i ==> IsSpace(s[k])) && (forall k :: j <= k < |s| ==> IsSpace(s[k]))
  {
    var i := SpaceRunEnd(s, 0);
    var j := SpaceRunStart(s, i, |s|);
    s[i..j]
  }

  /** `sep.join(parts)` for a one-character separator. */
  function Join(parts: seq<string>, sep: char): string {
    if |parts| == 0 then ""
    else if |parts| == 1 then parts[0]
    else parts[0] + [sep] + Join(parts[1..], sep)
  }

  /** `s.split(sep)` for a one-character separator: never empty. */
  function Split(s: string, sep: char): (r: seq<string>)
    ensures |r| >= 1
  {
    if |s| == 0 then [""]
    else
      var rest := Split(s[1..], sep);
      if s[0] == sep then [""] + rest else [[s[0]] + rest[0]] + rest[1..]
  }

  /** A string without the separator splits into itself alone. */
  lemma {:induction false} SplitWithout(s: string, sep: char)
    requires sep !in s
    ensures Split(s, sep) == [s]
  {
    if |s| > 0 {
      assert sep !in s[1..];
      SplitWithout(s[1..], sep);
      assert [s[0]] + s[1..] == s;
    }
  }

  /** A separator-free prefix followed by the separator is the first field. */
  lemma {:induction false} SplitAfterField(a: string, sep: char, b: string)
    requires sep !in a
    ensures Split(a + [sep] + b, sep) == [a] + Split(b, sep)
  {
    if |a| == 0 {
      assert (a + [sep] + b)[1..] == b;
    } else {
      assert (a + [sep] + b)[1..] == a[1..] + [sep] + b;
      assert sep !in a[1..];
      SplitAfterField(a[1..], sep, b);
      assert [a[0]] + a[1..] == a;
    }
  }

  /** Two separator-free fields in front come back as the first two fields. */
  lemma {:induction false} SplitTwoFields(a: string, b: string, sep: char, c: string)
    requires sep !in a && sep !in b
    ensures Split(a + [sep] + b + [sep] + c, sep) == [a, b] + Split(c, sep)
  {
    assert a + [sep] + b + [sep] + c == a + [sep] + (b + [sep] + c);
    SplitAfterField(a, sep, b + [sep] + c);
    SplitAfterField(b, sep, c);
  }

  /** There are at least two fields exactly when the separator occurs. */
  lemma {:induction false} SplitHasSecondField(s: string, sep: char)
    ensures |Split(s, sep)| >= 2 <==> sep in s
  {
    if |s| > 0 {
      SplitHasSecondField(s[1..], sep);
      assert sep in s <==> s[0] == sep || sep in s[1..];
    }
  }

  /** The first field is the whole string exactly when the separator does not occur. */
  lemma {:induction false} FirstFieldIsWhole(s: string, sep: char)
    ensures Split(s, sep)[0] == s <==> sep !in s
  {
    if sep !in s {
      SplitWithout(s, sep);
    } else {
      FirstFieldShorter(s, sep);
    }
  }

  lemma {:induction false} FirstFieldShorter(s: string, sep: char)
    requires sep in s
    ensures |Split(s, sep)[0]| < |s|
  {
    if s[0] != sep {
      assert sep in s[1..] by {
        var k :| 0 <= k < |s| && s[k] == sep;
        assert s[1..][k - 1] == sep;
      }
      FirstFieldShorter(s[1..], sep);
    }
  }

  /** `s.rfind(c)`: the index of the last occurrence, or -1. */
  function RFind(s: string, c: char): (r: int)
    ensures -1 <= r < |s|
    ensures r == -1 <==> c !in s
    ensures r >= 0 ==> s[r] == c
    ensures forall k :: r < k < |s| ==> s[k] != c
  {
    LastBefore(s, c, |s|)
  }

  /** The last index below `j` holding `c`, or -1. */
  function LastBefore(s: string, c: char, j: nat): (r: int)
    requires j <= |s|
    ensures -1 <= r < j
    ensures r >= 0 ==> s[r] == c
    ensures forall k :: r < k < j ==> s[k] != c
    decreases j
  {
    if j == 0 then -1 else if s[j - 1] == c then j - 1 else LastBefore(s, c, j - 1)
  }

  /** The index of the last `c` is the one index holding `c` with no `c` after it. */
  lemma {:induction false} RFindUnique(s: string, c: char, r: int)
    requires -1 <= r < |s| && (r >= 0 ==> s[r] == c) && forall k :: r < k < |s| ==> s[k] != c
    ensures RFind(s, c) == r
  {
  }

  /** Text without `c` appended after the last `c` does not move it. */
  lemma {:induction false} RFindAfter(a: string, b: string, c: char)
    requires c !in b
    ensures RFind(a + b, c) == RFind(a, c)
  {
    var r := RFind(a, c);
    var s := a + b;
    forall k | r < k < |s| ensures s[k] != c {
      if k < |a| {
        assert s[k] == a[k];
      } else {
        assert s[k] == b[k - |a|];
      }
    }
    if r >= 0 {
      assert s[r] == a[r];
    }
    RFindUnique(s, c, r);
  }

  /** In `a + [c] + b` with no `c` in `b`, the last `c` is at `|a|`. */
  lemma {:induction false} RFindLast(a: string, c: char, b: string)
    requires c !in b
    ensures RFind(a + [c] + b, c) == |a|
  {
    var s := a + [c] + b;
    forall k | |a| < k < |s| ensures s[k] != c {
      assert s[k] == b[k - |a| - 1];
    }
    RFindUnique(s, c, |a|);
  }

  /** Python's `s[0:stop]`, where a negative `stop` counts from the end. */
  function PyPrefix(s: string, stop: int): (r: string)
    ensures stop >= 0 ==> r == s[..if stop <= |s| then stop else |s|]
    ensures stop < 0 ==> r == s[..if |s| + stop >= 0 then |s| + stop else 0]
  {
    if stop >= 0 then s[..if stop <= |s| then stop else |s|]
    else s[..if |s| + stop >= 0 then |s| + stop else 0]
  }

  /** `s.rsplit(sep, 1)[0]`: everything before the last separator, or `s` if there is none. */
  function BeforeLast(s: string, sep: char): (r: string)
    ensures sep !in s ==> r == s
    ensures sep in s ==> |r| < |s| && s[|r|] == sep && r == s[..|r|] && forall k :: |r| < k < |s| ==> s[k] != sep
  {
    var k := RFind(s, sep);
    if k >= 0 then s[..k] else s
  }

  /** Removing a separator-free suffix after a separator gives back the stem. */
  lemma {:induction false} BeforeLastOfSuffix(stem: string, sep: char, ext: string)
    requires sep !in ext
    ensures BeforeLast(stem + [sep] + ext, sep) == stem
  {
    RFindLast(stem, sep, ext);
    assert (stem + [sep] + ext)[..|stem|] == stem;
  }
}
