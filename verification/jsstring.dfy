/** The JavaScript string operations the code generator is built from:
    `indexOf`, `lastIndexOf`, `substring`, `trim`/`trimStart`, `startsWith`,
    `split` on one character, `Array.prototype.join`, and the test
    `!isNaN(parseFloat(s))`. Strings are sequences of Unicode scalar
    values, so a character outside the Basic Multilingual Plane counts once
    here where JavaScript's `length` and indices count two code units. */
module JsString {

  /** The characters `trim` removes: the white space and line terminators of
      the language (tab, line feed, vertical tab, form feed, carriage return,
      space, no-break space, the byte-order mark, the line and paragraph
      separators and the other space separators). */
  predicate IsSpace(c: char) {
    var n := c as int;
    (0x09 <= n <= 0x0D) || n == 0x20 || n == 0xA0 || n == 0x1680 || (0x2000 <= n <= 0x200A)
    || n == 0x2028 || n == 0x2029 || n == 0x202F || n == 0x205F || n == 0x3000 || n == 0xFEFF
  }

  /** `s.trimStart()`: the longest suffix not starting with white space. */
  function TrimStart(s: string): (r: string)
    ensures r == [] || !IsSpace(r[0])
  {
    if s != [] && IsSpace(s[0]) then TrimStart(s[1..]) else s
  }

  /** What `trimStart` removes is a run of white space before what it keeps. */
  lemma {:induction false} TrimStartSplits(s: string)
    ensures |TrimStart(s)| <= |s| && s[|s| - |TrimStart(s)|..] == TrimStart(s)
    ensures forall i :: 0 <= i < |s| - |TrimStart(s)| ==> IsSpace(s[i])
    decreases |s|
  {
    if s != [] && IsSpace(s[0]) {
      var t := TrimStart(s[1..]);
      TrimStartSplits(s[1..]);
      assert s[1..][|s| - 1 - |t|..] == s[|s| - |t|..];
    }
  }

  /** `s.trimEnd()`. */
  function TrimEnd(s: string): (r: string)
    ensures r == [] || !IsSpace(r[|r| - 1])
  {
    if s != [] && IsSpace(s[|s| - 1]) then TrimEnd(s[..|s| - 1]) else s
  }

  /** What `trimEnd` removes is a run of white space after what it keeps. */
  lemma {:induction false} TrimEndSplits(s: string)
    ensures |TrimEnd(s)| <= |s| && s[..|TrimEnd(s)|] == TrimEnd(s)
    ensures forall i :: |TrimEnd(s)| <= i < |s| ==> IsSpace(s[i])
    decreases |s|
  {
    if s != [] && IsSpace(s[|s| - 1]) {
      var t := TrimEnd(s[..|s| - 1]);
      TrimEndSplits(s[..|s| - 1]);
      assert s[..|s| - 1][..|t|] == s[..|t|];
    }
  }

  /** `s.trim()`. */
  function Trim(s: string): (r: string)
    ensures r == [] || (!IsSpace(r[0]) && !IsSpace(r[|r| - 1]))
  {
    TrimEndSplits(TrimStart(s));
    TrimEnd(TrimStart(s))
  }

  /** Text that neither starts nor ends with white space trims to itself. */
  lemma TrimOfTrimmed(s: string)
    requires s == [] || (!IsSpace(s[0]) && !IsSpace(s[|s| - 1]))
    ensures Trim(s) == s
  {
  }

  /** Surrounding white space is trimmed away. */
  lemma TrimPadded(a: string, s: string, b: string)
    requires forall i :: 0 <= i < |a| ==> IsSpace(a[i])
    requires forall i :: 0 <= i < |b| ==> IsSpace(b[i])
    requires s != [] && !IsSpace(s[0]) && !IsSpace(s[|s| - 1])
    ensures Trim(a + s + b) == s
  {
    assert a + s + b == a + (s + b);
    TrimStartPadded(a, s + b);
    TrimEndPadded(s, b);
  }

  lemma {:induction false} TrimStartPadded(a: string, t: string)
    requires forall i :: 0 <= i < |a| ==> IsSpace(a[i])
    requires t != [] && !IsSpace(t[0])
    ensures TrimStart(a + t) == t
    decreases |a|
  {
    if a != [] {
      assert (a + t)[1..] == a[1..] + t;
      TrimStartPadded(a[1..], t);
    } else {
      assert a + t == t;
    }
  }

  lemma {:induction false} TrimEndPadded(s: string, b: string)
    requires forall i :: 0 <= i < |b| ==> IsSpace(b[i])
    requires s == [] || !IsSpace(s[|s| - 1])
    ensures TrimEnd(s + b) == s
    decreases |b|
  {
    if b != [] {
      assert (s + b)[..|s + b| - 1] == s + b[..|b| - 1];
      TrimEndPadded(s, b[..|b| - 1]);
    } else {
      assert s + b == s;
    }
  }

  /** `s.startsWith(p)`. */
  predicate StartsWith(s: string, p: string) {
    |p| <= |s| && s[..|p|] == p
  }

  /** `pat` occurs in `s` at position `i`. */
  predicate MatchAt(s: string, pat: string, i: int) {
    0 <= i && i + |pat| <= |s| && s[i..i + |pat|] == pat
  }

  /** `s.indexOf(pat, from)` for a non-empty pattern: the first occurrence at
      or after `from` (a negative start counts as 0), or -1. */
  function IndexOf(s: string, pat: string, from: int): (r: int)
    requires pat != []
    ensures r == -1 || (r >= from && MatchAt(s, pat, r))
    ensures forall i :: from <= i && (r == -1 || i < r) ==> !MatchAt(s, pat, i)
  {
    IndexFrom(s, pat, if from < 0 then 0 else from)
  }

  function IndexFrom(s: string, pat: string, from: nat): (r: int)
    requires pat != []
    ensures r == -1 || (r >= from && MatchAt(s, pat, r))
    ensures forall i :: from <= i && (r == -1 || i < r) ==> !MatchAt(s, pat, i)
    decreases |s| - from
  {
    if from + |pat| > |s| then -1
    else if s[from..from + |pat|] == pat then from
    else IndexFrom(s, pat, from + 1)
  }

  /** The first occurrence is where it is: a match at `k` with none in
      `[from, k)` is what `indexOf` finds. */
  lemma IndexOfIs(s: string, pat: string, from: int, k: int)
    requires pat != [] && from <= k && MatchAt(s, pat, k)
    requires forall i :: from <= i < k ==> !MatchAt(s, pat, i)
    ensures IndexOf(s, pat, from) == k
  {
  }

  /** No occurrence at or after `from`: `indexOf` gives -1. */
  lemma IndexOfNone(s: string, pat: string, from: int)
    requires pat != []
    requires forall i :: from <= i ==> !MatchAt(s, pat, i)
    ensures IndexOf(s, pat, from) == -1
  {
  }

  /** `s.lastIndexOf(c)` for one character: its last position, or -1. */
  function LastIndexOf(s: string, c: char): (r: int)
    ensures -1 <= r < |s|
    ensures r >= 0 ==> s[r] == c
    ensures forall i :: r < i < |s| ==> s[i] != c
  {
    if s == [] then -1
    else if s[|s| - 1] == c then |s| - 1
    else LastIndexOf(s[..|s| - 1], c)
  }

  /** The last position is where it is. */
  lemma LastIndexOfIs(s: string, c: char, k: int)
    requires -1 <= k < |s| && (k >= 0 ==> s[k] == c)
    requires forall i :: k < i < |s| ==> s[i] != c
    ensures LastIndexOf(s, c) == k
  {
  }

  /** `pat` occurs somewhere in `s`. */
  predicate Contains(s: string, pat: string)
    requires pat != []
  {
    IndexOf(s, pat, 0) >= 0
  }

  function Clamp(i: int, n: nat): (r: nat)
    ensures r <= n
    ensures 0 <= i <= n ==> r == i
  {
    if i < 0 then 0 else if i > n then n else i
  }

  /** `s.substring(a, b)`: both ends clamped to the string, and swapped when
      the start is past the end. */
  function Substring(s: string, a: int, b: int): (r: string)
    ensures 0 <= a <= b <= |s| ==> r == s[a..b]
    ensures 0 <= b <= a <= |s| ==> r == s[b..a]
  {
    var i := Clamp(a, |s|);
    var j := Clamp(b, |s|);
    if i <= j then s[i..j] else s[j..i]
  }

  /** `s.split(sep)` for a one-character separator: the pieces between
      separators, at least one. */
  function Split(s: string, sep: char): (r: seq<string>)
    ensures |r| >= 1
    ensures forall k :: 0 <= k < |r| ==> sep !in r[k]
    decreases |s|
  {
    var i := IndexOf(s, [sep], 0);
    if i < 0 then
      assert forall j :: 0 <= j < |s| ==> !MatchAt(s, [sep], j);
      assert forall j :: 0 <= j < |s| ==> s[j] != sep by {
        forall j | 0 <= j < |s| ensures s[j] != sep {
          assert !MatchAt(s, [sep], j);
          assert s[j..j + 1] == [s[j]];
        }
      }
      [s]
    else
      assert forall j :: 0 <= j < i ==> s[j] != sep by {
        forall j | 0 <= j < i ensures s[j] != sep {
          assert !MatchAt(s, [sep], j);
          assert s[j..j + 1] == [s[j]];
        }
      }
      [s[..i]] + Split(s[i + 1..], sep)
  }

  /** `parts.join(sep)`: nothing for no parts. */
  function Join(parts: seq<string>, sep: string): (r: string)
  {
    if |parts| == 0 then ""
    else if |parts| == 1 then parts[0]
    else parts[0] + sep + Join(parts[1..], sep)
  }

  /** Splitting and joining back with the separator gives the text again. */
  lemma {:induction false} SplitJoin(s: string, sep: char)
    ensures Join(Split(s, sep), [sep]) == s
    decreases |s|
  {
    var i := IndexOf(s, [sep], 0);
    if i >= 0 {
      assert s[i..i + 1] == [sep];
      SplitJoin(s[i + 1..], sep);
      var rest := Split(s[i + 1..], sep);
      assert Split(s, sep) == [s[..i]] + rest;
      assert (Split(s, sep))[1..] == rest;
      assert s == s[..i] + [sep] + s[i + 1..];
    }
  }

  /** Joining pieces free of the separator and splitting gives the pieces back. */
  lemma {:induction false} JoinSplit(parts: seq<string>, sep: char)
    requires |parts| >= 1
    requires forall k :: 0 <= k < |parts| ==> sep !in parts[k]
    ensures Split(Join(parts, [sep]), sep) == parts
    decreases |parts|
  {
    var p := parts[0];
    if |parts| == 1 {
      forall i | 0 <= i
        ensures !MatchAt(p, [sep], i)
      {
        if i < |p| {
          assert p[i] != sep;
          assert p[i..i + 1] == [p[i]];
        }
      }
      IndexOfNone(p, [sep], 0);
    } else {
      var s := Join(parts, [sep]);
      var rest := Join(parts[1..], [sep]);
      assert s == p + [sep] + rest;
      assert MatchAt(s, [sep], |p|) by {
        assert s[|p|..|p| + 1] == [sep];
      }
      forall i | 0 <= i < |p|
        ensures !MatchAt(s, [sep], i)
      {
        assert s[i] == p[i];
        assert s[i..i + 1] == [p[i]];
      }
      IndexOfIs(s, [sep], 0, |p|);
      assert s[..|p|] == p;
      assert s[|p| + 1..] == rest;
      JoinSplit(parts[1..], sep);
      assert parts == [p] + parts[1..];
    }
  }

  predicate IsDigit(c: char) {
    '0' <= c <= '9'
  }

  /** `!isNaN(parseFloat(s))` for text without leading white space: some
      prefix reads as a decimal literal, that is an optional sign followed by
      a digit, by a point and a digit, or by `Infinity`. */
  predicate ParsesAsNumber(s: string) {
    var t := if s != [] && (s[0] == '+' || s[0] == '-') then s[1..] else s;
    (|t| >= 1 && IsDigit(t[0]))
    || (|t| >= 2 && t[0] == '.' && IsDigit(t[1]))
    || StartsWith(t, "Infinity")
  }
}
