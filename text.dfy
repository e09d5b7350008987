/**
 * The string operations the application relies on, written out the way
 * Python's `str` methods behave: `split(sep)`, `sep.join(parts)`,
 * `replace(old, new)`, `strip()`, `lower()`, `in`, `str(n)` and `int(s)`.
 */
module Text {
  import opened Wrappers

  /** The ASCII characters for which Python's `str.isspace()` holds, which `str.strip()`
      and `int()` remove: space, tab, line feed, carriage return, vertical tab, form
      feed (U+0009 to U+000D) and the four separators U+001C to U+001F. */
  predicate IsWhitespace(c: char) {
    c == ' ' || ('\t' <= c <= '\r') || ('\U{001C}' <= c <= '\U{001F}')
  }

  predicate StartsWith(s: string, p: string) {
    |p| <= |s| && s[..|p|] == p
  }

  /** `p` occurs in `s` starting at position `j`. */
  predicate OccursAt(s: string, j: nat, p: string) {
    j + |p| <= |s| && s[j..j + |p|] == p
  }

  lemma {:induction false} OccursAtShift(s: string, j: nat, p: string)
    requires 0 < j && |s| > 0
    ensures OccursAt(s, j, p) == OccursAt(s[1..], j - 1, p)
  {
    if j + |p| <= |s| {
      assert s[1..][j - 1..j - 1 + |p|] == s[j..j + |p|];
    }
  }

  /** The first position at which `p` occurs in `s`, as `str.find` without
      the -1; `IndexOfSpec` states what it finds. */
  function IndexOf(s: string, p: string): (r: Option<nat>)
    requires |p| > 0
    ensures r.Some? ==> r.value + |p| <= |s|
    decreases |s|
  {
    if |s| < |p| then None
    else if s[..|p|] == p then Some(0)
    else Shift(IndexOf(s[1..], p))
  }

  /** A position found in `s[1..]`, as a position in `s`. */
  function Shift(r: Option<nat>): Option<nat> {
    match r
    case None => None
    case Some(i) => Some(i + 1)
  }

  /** `IndexOf` finds the first occurrence, and finds nothing only when there is none. */
  lemma {:induction false} IndexOfSpec(s: string, p: string)
    requires |p| > 0
    ensures IndexOf(s, p).Some? ==> OccursAt(s, IndexOf(s, p).value, p)
    ensures IndexOf(s, p).Some? ==> forall j: nat :: j < IndexOf(s, p).value ==> !OccursAt(s, j, p)
    ensures IndexOf(s, p).None? ==> forall j: nat :: !OccursAt(s, j, p)
    decreases |s|
  {
    if |s| >= |p| {
      if s[..|p|] == p {
        assert OccursAt(s, 0, p);
      } else {
        IndexOfSpec(s[1..], p);
        forall j: nat | 0 < j ensures OccursAt(s, j, p) == OccursAt(s[1..], j - 1, p) {
          OccursAtShift(s, j, p);
        }
        assert !OccursAt(s, 0, p);
      }
    }
  }

  /** Python's `p in s` for a non-empty `p`. */
  predicate Contains(s: string, p: string)
    requires |p| > 0
  {
    IndexOf(s, p).Some?
  }

  /** Python's `s.split(sep)` for a non-empty separator: the pieces between
      the non-overlapping occurrences of `sep`, scanned from the left. */
  function Split(s: string, sep: string): (parts: seq<string>)
    requires |sep| > 0
    ensures |parts| >= 1
    decreases |s|
  {
    match IndexOf(s, sep)
    case None => [s]
    case Some(i) => [s[..i]] + Split(s[i + |sep|..], sep)
  }

  /** Python's `sep.join(parts)`. */
  function Join(parts: seq<string>, sep: string): string
  {
    if |parts| == 0 then ""
    else if |parts| == 1 then parts[0]
    else parts[0] + sep + Join(parts[1..], sep)
  }

  /** Python's `s.replace(p, r)`: every non-overlapping occurrence of `p`,
      scanned from the left, is replaced by `r`. */
  function ReplaceAll(s: string, p: string, r: string): string
    requires |p| > 0
    decreases |s|
  {
    if |s| < |p| then s
    else if s[..|p|] == p then r + ReplaceAll(s[|p|..], p, r)
    else [s[0]] + ReplaceAll(s[1..], p, r)
  }

  /** A separator that occurs splits the string into at least two pieces. */
  lemma {:induction false} SplitAtOccurrence(s: string, sep: string)
    requires |sep| > 0 && IndexOf(s, sep).Some?
    ensures |Split(s, sep)| >= 2
  {
  }

  /** The first occurrence is found at `k` when no earlier character starts the pattern. */
  lemma {:induction false} IndexOfAfterFreePrefix(s: string, p: string, k: nat)
    requires |p| > 0 && OccursAt(s, k, p)
    requires forall j :: 0 <= j < k ==> s[j] != p[0]
    ensures IndexOf(s, p) == Some(k)
  {
    IndexOfSpec(s, p);
    var r := IndexOf(s, p);
    assert r.Some? by {
      if r.None? { assert false; }
    }
    var v := r.value;
    assert v <= k;
    assert s[v] == p[0] by {
      assert OccursAt(s, v, p);
      assert s[v..v + |p|][0] == s[v];
    }
  }

  /** A pattern whose first character never appears does not occur. */
  lemma {:induction false} IndexOfNoFirstChar(s: string, p: string)
    requires |p| > 0
    requires forall j :: 0 <= j < |s| ==> s[j] != p[0]
    ensures IndexOf(s, p).None?
    decreases |s|
  {
    if |s| >= |p| {
      assert s[..|p|][0] == s[0];
      assert forall j :: 0 <= j < |s| - 1 ==> s[1..][j] == s[j + 1];
      IndexOfNoFirstChar(s[1..], p);
    }
  }

  /** No piece produced by `Split` contains the separator. */
  lemma {:induction false} SplitPiecesAreFree(s: string, sep: string)
    requires |sep| > 0
    ensures forall k :: 0 <= k < |Split(s, sep)| ==> !Contains(Split(s, sep)[k], sep)
    decreases |s|
  {
    var idx := IndexOf(s, sep);
    if idx.Some? {
      IndexOfSpec(s, sep);
      var i := idx.value;
      var head := s[..i];
      var inHead := IndexOf(head, sep);
      if inHead.Some? {
        IndexOfSpec(head, sep);
        OccursInPrefix(s, i, inHead.value, sep);
        assert false;
      }
      SplitPiecesAreFree(s[i + |sep|..], sep);
      assert Split(s, sep) == [head] + Split(s[i + |sep|..], sep);
    }
  }

  lemma {:induction false} OccursInPrefix(s: string, i: nat, v: nat, p: string)
    requires i <= |s| && OccursAt(s[..i], v, p)
    ensures OccursAt(s, v, p)
  {
    assert s[..i][v..v + |p|] == s[v..v + |p|];
  }

  /** Joining the pieces of a split with the same separator gives back the string. */
  lemma {:induction false} JoinSplit(s: string, sep: string)
    requires |sep| > 0
    ensures Join(Split(s, sep), sep) == s
    decreases |s|
  {
    var idx := IndexOf(s, sep);
    if idx.Some? {
      IndexOfSpec(s, sep);
      var i := idx.value;
      var rest := s[i + |sep|..];
      var tail := Split(rest, sep);
      JoinSplit(rest, sep);
      assert Split(s, sep) == [s[..i]] + tail;
      assert Join([s[..i]] + tail, sep) == s[..i] + sep + Join(tail, sep);
      assert s == s[..i] + s[i..i + |sep|] + rest;
    }
  }

  /** `replace` agrees with splitting on the pattern and joining with the replacement. */
  lemma {:induction false} ReplaceAllIsSplitJoin(s: string, p: string, r: string)
    requires |p| > 0
    ensures ReplaceAll(s, p, r) == Join(Split(s, p), r)
    decreases |s|
  {
    if |s| < |p| {
      assert IndexOf(s, p).None?;
    } else if s[..|p|] == p {
      ReplaceAllIsSplitJoin(s[|p|..], p, r);
      assert IndexOf(s, p) == Some(0);
      var tail := Split(s[|p|..], p);
      assert Split(s, p) == [""] + tail;
      assert Join([""] + tail, r) == "" + r + Join(tail, r);
    } else {
      ReplaceAllIsSplitJoin(s[1..], p, r);
      SplitJoinSkipChar(s, p, r);
    }
  }

  /** When `s` does not start with `p`, its first character passes through split-then-join. */
  lemma {:induction false} SplitJoinSkipChar(s: string, p: string, r: string)
    requires |p| > 0 && |s| >= |p| && s[..|p|] != p
    ensures Join(Split(s, p), r) == [s[0]] + Join(Split(s[1..], p), r)
  {
    var rest := IndexOf(s[1..], p);
    if rest.None? {
      assert IndexOf(s, p).None?;
      assert [s[0]] + s[1..] == s;
    } else {
      SplitSkipChar(s, p, r, rest.value);
    }
  }

  lemma {:induction false} SplitSkipChar(s: string, p: string, r: string, i: nat)
    requires |p| > 0 && |s| >= |p| && s[..|p|] != p
    requires IndexOf(s[1..], p) == Some(i)
    ensures Join(Split(s, p), r) == [s[0]] + Join(Split(s[1..], p), r)
  {
    SplitAfterSkip(s, p, i);
    SplitOfTail(s, p, i);
    var tail := Split(s[i + 1 + |p|..], p);
    JoinCons(s[..i + 1], tail, r);
    JoinCons(s[1..i + 1], tail, r);
    PrependStep(s, i + 1, r + Join(tail, r));
  }

  lemma {:induction false} SplitAfterSkip(s: string, p: string, i: nat)
    requires |p| > 0 && |s| >= |p| && s[..|p|] != p
    requires IndexOf(s[1..], p) == Some(i)
    ensures i + 1 + |p| <= |s| && Split(s, p) == [s[..i + 1]] + Split(s[i + 1 + |p|..], p)
  {
    IndexOfSkip(s, p, i);
    SplitAt(s, p, i + 1);
  }

  lemma {:induction false} SplitOfTail(s: string, p: string, i: nat)
    requires |p| > 0 && |s| >= 1
    requires IndexOf(s[1..], p) == Some(i)
    ensures i + 1 + |p| <= |s| && Split(s[1..], p) == [s[1..i + 1]] + Split(s[i + 1 + |p|..], p)
  {
    SplitAt(s[1..], p, i);
    TailSlices(s, i, i + |p|);
  }

  lemma {:induction false} TailSlices(s: string, i: nat, j: nat)
    requires 1 <= |s| && i <= j <= |s| - 1
    ensures s[1..][..i] == s[1..i + 1] && s[1..][j..] == s[j + 1..]
  {
  }

  lemma {:induction false} PrependStep(s: string, n: nat, rest: string)
    requires 1 <= n <= |s|
    ensures s[..n] + rest == [s[0]] + (s[1..n] + rest)
  {
    assert [s[0]] + s[1..n] == s[..n];
  }

  /** One step of `Split` at the first occurrence. */
  lemma {:induction false} SplitAt(s: string, p: string, i: nat)
    requires |p| > 0 && IndexOf(s, p) == Some(i)
    ensures i + |p| <= |s| && Split(s, p) == [s[..i]] + Split(s[i + |p|..], p)
  {
  }

  lemma {:induction false} IndexOfSkip(s: string, p: string, i: nat)
    requires |p| > 0 && |s| >= |p| && s[..|p|] != p
    requires IndexOf(s[1..], p) == Some(i)
    ensures IndexOf(s, p) == Some(i + 1)
  {
  }

  lemma {:induction false} JoinCons(h: string, tail: seq<string>, sep: string)
    requires |tail| >= 1
    ensures Join([h] + tail, sep) == h + (sep + Join(tail, sep))
  {
    assert ([h] + tail)[1..] == tail;
  }

  /** Splitting a join on a one-character separator that no piece contains
      gives back the pieces. */
  lemma {:induction false} SplitJoin(parts: seq<string>, c: char)
    requires |parts| >= 1
    requires forall k :: 0 <= k < |parts| ==> c !in parts[k]
    ensures Split(Join(parts, [c]), [c]) == parts
    decreases |parts|
  {
    var s := Join(parts, [c]);
    if |parts| == 1 {
      IndexOfNoFirstChar(s, [c]);
    } else {
      var h := parts[0];
      var rest := Join(parts[1..], [c]);
      assert s == h + [c] + rest;
      assert OccursAt(s, |h|, [c]) by {
        assert s[|h|..|h| + 1] == [c];
      }
      assert forall j :: 0 <= j < |h| ==> s[j] != c by {
        forall j | 0 <= j < |h| ensures s[j] != c {
          assert s[j] == h[j];
        }
      }
      IndexOfAfterFreePrefix(s, [c], |h|);
      assert s[..|h|] == h;
      assert s[|h| + 1..] == rest;
      SplitJoin(parts[1..], c);
      assert parts == [h] + parts[1..];
    }
  }

  /** A character that is neither the separator nor in any piece is not in the join. */
  lemma {:induction false} JoinAvoids(parts: seq<string>, sep: char, c: char)
    requires c != sep
    requires forall k :: 0 <= k < |parts| ==> c !in parts[k]
    ensures c !in Join(parts, [sep])
    decreases |parts|
  {
    if |parts| > 1 {
      JoinAvoids(parts[1..], sep, c);
    }
  }

  /** A pattern that does not occur is left alone by `replace`. */
  lemma {:induction false} ReplaceAbsent(s: string, p: string, r: string)
    requires |p| > 0
    requires !Contains(s, p)
    ensures ReplaceAll(s, p, r) == s
  {
    ReplaceAllIsSplitJoin(s, p, r);
  }

  /** Where the run of whitespace starting at `i` ends. */
  function WhitespaceEnd(s: string, i: nat): (k: nat)
    requires i <= |s|
    ensures i <= k <= |s|
    ensures forall j :: i <= j < k ==> IsWhitespace(s[j])
    ensures k < |s| ==> !IsWhitespace(s[k])
    decreases |s| - i
  {
    if i < |s| && IsWhitespace(s[i]) then WhitespaceEnd(s, i + 1) else i
  }

  /** Where the run of whitespace ending just before `i` starts. */
  function WhitespaceStart(s: string, i: nat): (k: nat)
    requires i <= |s|
    ensures k <= i
    ensures forall j :: k <= j < i ==> IsWhitespace(s[j])
    ensures 0 < k ==> !IsWhitespace(s[k - 1])
  {
    if 0 < i && IsWhitespace(s[i - 1]) then WhitespaceStart(s, i - 1) else i
  }

  /** Python's `str.lstrip()`. */
  function TrimLeft(s: string): (r: string)
    ensures |r| <= |s| && r == s[|s| - |r|..]
    ensures forall j :: 0 <= j < |s| - |r| ==> IsWhitespace(s[j])
    ensures r != [] ==> !IsWhitespace(r[0])
  {
    s[WhitespaceEnd(s, 0)..]
  }

  /** Python's `str.rstrip()`. */
  function TrimRight(s: string): (r: string)
    ensures |r| <= |s| && r == s[..|r|]
    ensures forall j :: |r| <= j < |s| ==> IsWhitespace(s[j])
    ensures r != [] ==> !IsWhitespace(r[|r| - 1])
  {
    s[..WhitespaceStart(s, |s|)]
  }

  /** Python's `str.strip()`: the longest middle slice that neither starts
      nor ends with whitespace, everything around it being whitespace. */
  function Strip(s: string): (r: string)
    ensures r == [] || (!IsWhitespace(r[0]) && !IsWhitespace(r[|r| - 1]))
    ensures |r| <= |s|
  {
    TrimRight(TrimLeft(s))
  }

  /** What `strip()` removes is whitespace on both sides of the slice it keeps. */
  lemma {:induction false} StripIsMiddle(s: string)
    ensures var r := Strip(s); var k := |s| - |TrimLeft(s)|;
            && k + |r| <= |s| && r == s[k..k + |r|]
            && (forall j :: 0 <= j < k ==> IsWhitespace(s[j]))
            && (forall j :: k + |r| <= j < |s| ==> IsWhitespace(s[j]))
  {
    var l := TrimLeft(s);
    var r := TrimRight(l);
    MiddleSlice(s, l, r);
  }

  /** Cutting whitespace off the front and then off the back leaves a middle
      slice with whitespace on both sides. */
  lemma {:induction false} MiddleSlice(s: string, l: string, r: string)
    requires |l| <= |s| && l == s[|s| - |l|..]
    requires |r| <= |l| && r == l[..|r|]
    requires forall j :: |r| <= j < |l| ==> IsWhitespace(l[j])
    ensures var k := |s| - |l|;
            && k + |r| <= |s| && r == s[k..k + |r|]
            && (forall j :: k + |r| <= j < |s| ==> IsWhitespace(s[j]))
  {
    var k := |s| - |l|;
    forall j | k + |r| <= j < |s| ensures IsWhitespace(s[j]) {
      assert s[j] == l[j - k];
    }
  }

  /** A string with no whitespace at all is its own `strip()`. */
  lemma {:induction false} StripNoWhitespace(s: string)
    requires forall j :: 0 <= j < |s| ==> !IsWhitespace(s[j])
    ensures Strip(s) == s
  {
    var l := TrimLeft(s);
    assert |l| == |s| by {
      if |s| > 0 { assert !IsWhitespace(s[0]); }
    }
    assert l == s;
    var r := TrimRight(l);
    assert |r| == |l| by {
      if |l| > 0 { assert !IsWhitespace(l[|l| - 1]); }
    }
  }

  function LowerChar(c: char): char {
    if 'A' <= c <= 'Z' then (c as int + 32) as char else c
  }

  /** Python's `str.lower()` on ASCII letters. */
  function Lower(s: string): (r: string)
    ensures |r| == |s|
    ensures forall k :: 0 <= k < |s| ==> r[k] == LowerChar(s[k])
  {
    seq(|s|, k requires 0 <= k < |s| => LowerChar(s[k]))
  }

  predicate IsDigit(c: char) {
    '0' <= c <= '9'
  }

  predicate IsDigits(s: string) {
    |s| > 0 && forall k :: 0 <= k < |s| ==> IsDigit(s[k])
  }

  function DigitChar(d: nat): (c: char)
    requires d < 10
    ensures IsDigit(c)
  {
    ('0' as int + d) as char
  }

  function DigitValue(c: char): nat
    requires IsDigit(c)
  {
    c as int - '0' as int
  }

  /** Python's `str(n)` for a natural number: its decimal digits. */
  function NatToString(n: nat): (s: string)
    ensures IsDigits(s)
    decreases n
  {
    if n < 10 then [DigitChar(n)] else NatToString(n / 10) + [DigitChar(n % 10)]
  }

  /** The number a string of decimal digits denotes. */
  function DigitsValue(s: string): nat
    requires forall k :: 0 <= k < |s| ==> IsDigit(s[k])
  {
    if s == [] then 0 else DigitsValue(s[..|s| - 1]) * 10 + DigitValue(s[|s| - 1])
  }

  /** Python's `int(s)` for a decimal literal: surrounding whitespace is
      ignored and an optional sign precedes the digits; anything else raises,
      which is `None` here. */
  function ParseInt(s: string): (r: Option<int>)
    ensures r.Some? ==> var t := Strip(s); |t| > 0 && (IsDigit(t[0]) || t[0] == '-' || t[0] == '+')
    ensures var t := Strip(s); IsDigits(t) ==> r == Some(DigitsValue(t))
    ensures var t := Strip(s); |t| > 0 && t[0] == '+' && IsDigits(t[1..]) ==> r == Some(DigitsValue(t[1..]))
    ensures var t := Strip(s); |t| > 0 && t[0] == '-' && IsDigits(t[1..]) ==> r == Some(-(DigitsValue(t[1..]) as int))
    ensures var t := Strip(s); r.None? <==> !IsDigits(t) && !(|t| > 0 && (t[0] == '-' || t[0] == '+') && IsDigits(t[1..]))
  {
    var t := Strip(s);
    if |t| > 0 && (t[0] == '-' || t[0] == '+') then
      if IsDigits(t[1..]) then
        var v: int := DigitsValue(t[1..]);
        Some(if t[0] == '-' then -v else v)
      else None
    else if IsDigits(t) then Some(DigitsValue(t))
    else None
  }

  /** Reading the decimal digits of `n` gives `n` back. */
  lemma {:induction false} DigitsRoundTrip(n: nat)
    ensures DigitsValue(NatToString(n)) == n
    decreases n
  {
    var s := NatToString(n);
    if n >= 10 {
      DigitsRoundTrip(n / 10);
      assert s[..|s| - 1] == NatToString(n / 10);
    }
  }

  /** `int(str(n)) == n`. */
  lemma {:induction false} ParseIntOfNatString(n: nat)
    ensures ParseInt(NatToString(n)) == Some(n)
  {
    var s := NatToString(n);
    assert forall j :: 0 <= j < |s| ==> !IsWhitespace(s[j]) by {
      forall j | 0 <= j < |s| ensures !IsWhitespace(s[j]) { assert IsDigit(s[j]); }
    }
    StripNoWhitespace(s);
    DigitsRoundTrip(n);
    assert IsDigit(s[0]);
  }
}
