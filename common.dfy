/** String and option helpers shared by the whole model.

    JavaScript strings are modelled as Dafny strings (sequences of Unicode
    scalar values).  Where the JavaScript source relies on a built-in string
    operation (`startsWith`, `endsWith`, `includes`, `indexOf`, `split`,
    `trim`, `toLowerCase`, `length`) this module gives it a definition and
    states the property the callers rely on. */
module Common {

  datatype Option<+T> = None | Some(value: T)

  /** An octet. */
  type Byte = b: int | 0 <= b < 256

  // ---------------------------------------------------------------------
  // Prefixes, suffixes and substrings
  // ---------------------------------------------------------------------

  predicate StartsWith(s: string, p: string) {
    |p| <= |s| && s[..|p|] == p
  }

  predicate EndsWith(s: string, p: string) {
    |p| <= |s| && s[|s| - |p|..] == p
  }

  /** `p` occurs in `s` starting at index `i`. */
  predicate OccursAt(s: string, p: string, i: nat) {
    i + |p| <= |s| && s[i..i + |p|] == p
  }

  /** JavaScript `s.includes(p)`. */
  predicate Contains(s: string, p: string) {
    exists i :: 0 <= i <= |s| - |p| && OccursAt(s, p, i)
  }

  /** Leftmost occurrence of `p` in `s` at or after `from`. */
  function IndexFrom(s: string, p: string, from: nat): (r: Option<nat>)
    requires from <= |s|
    ensures r.Some? ==> from <= r.value && OccursAt(s, p, r.value)
    ensures r.Some? ==> forall j: nat :: from <= j < r.value ==> !OccursAt(s, p, j)
    ensures r.None? ==> forall j: nat :: from <= j ==> !OccursAt(s, p, j)
    decreases |s| - from
  {
    if OccursAt(s, p, from) then Some(from)
    else if from + |p| >= |s| then None
    else IndexFrom(s, p, from + 1)
  }

  /** JavaScript `s.indexOf(p)`, with `None` for -1: the leftmost occurrence. */
  function IndexOf(s: string, p: string): (r: Option<nat>)
    ensures r.Some? <==> Contains(s, p)
    ensures r.Some? ==> OccursAt(s, p, r.value) &&
                        forall j: nat :: j < r.value ==> !OccursAt(s, p, j)
  {
    IndexFrom(s, p, 0)
  }

  /** JavaScript `s.replace(p, "")` for a literal string `p`: removes the
      leftmost occurrence, if any. */
  function RemoveFirst(s: string, p: string): (r: string)
    ensures !Contains(s, p) ==> r == s
    ensures Contains(s, p) ==> |r| == |s| - |p|
  {
    match IndexOf(s, p)
    case None => s
    case Some(i) => s[..i] + s[i + |p|..]
  }

  // ---------------------------------------------------------------------
  // Splitting and joining on separator characters
  // ---------------------------------------------------------------------

  /** Index of the first character of `s` that is in `seps`. */
  function FirstIn(s: string, seps: set<char>): (r: Option<nat>)
    ensures r.None? <==> forall k :: 0 <= k < |s| ==> s[k] !in seps
    ensures r.Some? ==> r.value < |s| && s[r.value] in seps &&
                        forall k :: 0 <= k < r.value ==> s[k] !in seps
  {
    if s == [] then None
    else if s[0] in seps then Some(0)
    else match FirstIn(s[1..], seps)
      case None => None
      case Some(i) => Some(i + 1)
  }

  /** A separator at `j` means the first separator is at or before `j`. */
  lemma FirstInAtMost(s: string, seps: set<char>, j: nat)
    requires j < |s| && s[j] in seps
    ensures FirstIn(s, seps).Some? && FirstIn(s, seps).value <= j
  {
  }

  /** A separator-free stretch followed by a separator: the first separator
      is the one right after the stretch. */
  lemma FirstInAfterFree(a: string, c: char, b: string, seps: set<char>)
    requires c in seps
    requires forall k :: 0 <= k < |a| ==> a[k] !in seps
    ensures FirstIn(a + [c] + b, seps) == Some(|a|)
  {
    var s := a + [c] + b;
    FirstInAtMost(s, seps, |a|);
    assert forall k :: 0 <= k < |a| ==> s[k] == a[k];
  }

  predicate NoneIn(s: string, seps: set<char>) {
    forall k :: 0 <= k < |s| ==> s[k] !in seps
  }

  /** JavaScript `s.split(sep)` when every character of `seps` is a
      separator (a one-character string separator, or a character class
      such as `/[/\\]/`). */
  function Split(s: string, seps: set<char>): (r: seq<string>)
    ensures |r| >= 1
    decreases |s|
  {
    match FirstIn(s, seps)
    case None => [s]
    case Some(i) => [s[..i]] + Split(s[i + 1..], seps)
  }

  /** No piece of a split holds a separator. */
  lemma {:induction false} SplitPiecesFree(s: string, seps: set<char>)
    ensures forall k :: 0 <= k < |Split(s, seps)| ==> NoneIn(Split(s, seps)[k], seps)
    decreases |s|
  {
    var f := FirstIn(s, seps);
    if f.Some? {
      var i := f.value;
      SplitPiecesFree(s[i + 1..], seps);
      assert Split(s, seps) == [s[..i]] + Split(s[i + 1..], seps);
    }
  }

  /** A separator-free head followed by a separator is the first piece. */
  lemma SplitAfterFree(a: string, c: char, b: string, seps: set<char>)
    requires c in seps && NoneIn(a, seps)
    ensures Split(a + [c] + b, seps) == [a] + Split(b, seps)
  {
    var s := a + [c] + b;
    FirstInAfterFree(a, c, b, seps);
    assert s[..|a|] == a;
    assert s[|a| + 1..] == b;
  }

  /** Pieces glued back with one separator character between them. */
  function Join(pieces: seq<string>, sep: char): string
    requires |pieces| >= 1
  {
    if |pieces| == 1 then pieces[0] else pieces[0] + [sep] + Join(pieces[1..], sep)
  }

  /** Splitting on a single character and joining with it gives back the
      original string. */
  lemma {:induction false} JoinSplit(s: string, c: char)
    ensures Join(Split(s, {c}), c) == s
    decreases |s|
  {
    match FirstIn(s, {c})
    case None =>
    case Some(i) =>
      var rest := s[i + 1..];
      JoinSplit(rest, c);
      JoinCons(s[..i], Split(rest, {c}), c);
      SliceAround(s, i);
  }

  lemma JoinCons(p: string, rest: seq<string>, c: char)
    requires |rest| >= 1
    ensures Join([p] + rest, c) == p + [c] + Join(rest, c)
  {
    assert ([p] + rest)[1..] == rest;
  }

  lemma Glue(a: string, b: string, c: string, x: char, y: char)
    ensures a + [x] + (b + [y] + c) == a + [x] + b + [y] + c
  {
  }

  lemma SliceAround(s: string, i: nat)
    requires i < |s|
    ensures s == s[..i] + [s[i]] + s[i + 1..]
  {
  }

  /** Splitting a join of separator-free pieces gives back the pieces. */
  lemma {:induction false} SplitJoin(pieces: seq<string>, c: char)
    requires |pieces| >= 1
    requires forall k :: 0 <= k < |pieces| ==> NoneIn(pieces[k], {c})
    ensures Split(Join(pieces, c), {c}) == pieces
    decreases |pieces|
  {
    if |pieces| == 1 {
      assert NoneIn(pieces[0], {c});
    } else {
      SplitJoin(pieces[1..], c);
      SplitAfterFree(pieces[0], c, Join(pieces[1..], c), {c});
      assert [pieces[0]] + pieces[1..] == pieces;
    }
  }

  /** JavaScript `s.split(sep).pop()`: the text after the last separator. */
  function LastSegment(s: string, seps: set<char>): (r: string)
  {
    var pieces := Split(s, seps);
    pieces[|pieces| - 1]
  }

  /** The last segment holds no separator, ends `s`, and is all of `s` when
      `s` holds no separator. */
  lemma {:induction false} LastSegmentProperties(s: string, seps: set<char>)
    ensures NoneIn(LastSegment(s, seps), seps)
    ensures EndsWith(s, LastSegment(s, seps))
    ensures NoneIn(s, seps) ==> LastSegment(s, seps) == s
    decreases |s|
  {
    var f := FirstIn(s, seps);
    if f.Some? {
      var i := f.value;
      var t := s[i + 1..];
      LastSegmentProperties(t, seps);
      LastSegmentStep(s, seps, i);
      var r := LastSegment(t, seps);
      assert EndsWith(s, r) by {
        assert t[|t| - |r|..] == r;
        assert s[|s| - |r|..] == t[|t| - |r|..];
      }
      assert !NoneIn(s, seps) by { assert s[i] in seps; }
    } else {
      assert Split(s, seps) == [s];
      assert s[|s| - |s|..] == s;
    }
  }

  /** A separator-free head and a separator do not change the last
      segment. */
  lemma LastSegmentAfterFree(a: string, c: char, b: string, seps: set<char>)
    requires c in seps && NoneIn(a, seps)
    ensures LastSegment(a + [c] + b, seps) == LastSegment(b, seps)
  {
    SplitAfterFree(a, c, b, seps);
  }

  /** Past the first separator, the last segment is that of the rest. */
  lemma LastSegmentStep(s: string, seps: set<char>, i: nat)
    requires FirstIn(s, seps) == Some(i)
    ensures LastSegment(s, seps) == LastSegment(s[i + 1..], seps)
  {
    var tail := Split(s[i + 1..], seps);
    var pieces := Split(s, seps);
    assert pieces == [s[..i]] + tail;
    assert pieces[|pieces| - 1] == tail[|tail| - 1];
  }

  /** A separator followed by a separator-free tail: the tail is the last
      segment, whatever comes before. */
  lemma {:induction false} LastSegmentAfter(pre: string, sep: char, x: string, seps: set<char>)
    requires sep in seps
    requires NoneIn(x, seps)
    ensures LastSegment(pre + [sep] + x, seps) == x
    decreases |pre|
  {
    var s := pre + [sep] + x;
    FirstInAtMost(s, seps, |pre|);
    var i := FirstIn(s, seps).value;
    LastSegmentStep(s, seps, i);
    if i == |pre| {
      assert s[i + 1..] == x;
      LastSegmentProperties(x, seps);
    } else {
      assert s[i + 1..] == pre[i + 1..] + [sep] + x;
      LastSegmentAfter(pre[i + 1..], sep, x, seps);
    }
  }

  // ---------------------------------------------------------------------
  // Whitespace, trimming, case and length as JavaScript defines them
  // ---------------------------------------------------------------------

  /** The characters matched by `\s` in a JavaScript regular expression and
      removed by `String.prototype.trim`: WhiteSpace and LineTerminator. */
  predicate IsJsSpace(c: char) {
    c == '\t' || c == '\n' || c == '\U{000B}' || c == '\U{000C}' || c == '\r' || c == ' '
    || c == '\U{00A0}' || c == '\U{1680}' || ('\U{2000}' <= c <= '\U{200A}')
    || c == '\U{2028}' || c == '\U{2029}' || c == '\U{202F}' || c == '\U{205F}'
    || c == '\U{3000}' || c == '\U{FEFF}'
  }

  predicate AllSpace(s: string) {
    forall k :: 0 <= k < |s| ==> IsJsSpace(s[k])
  }

  function TrimStart(s: string): (r: string)
    ensures EndsWith(s, r)
    ensures r == [] || !IsJsSpace(r[0])
    ensures AllSpace(s[..|s| - |r|])
  {
    if s != [] && IsJsSpace(s[0]) then
      var r := TrimStart(s[1..]);
      assert s[..|s| - |r|] == [s[0]] + s[1..][..|s| - 1 - |r|];
      r
    else s
  }

  function TrimEnd(s: string): (r: string)
    ensures StartsWith(s, r)
    ensures r == [] || !IsJsSpace(r[|r| - 1])
    ensures AllSpace(s[|r|..])
  {
    if s != [] && IsJsSpace(s[|s| - 1]) then
      var r := TrimEnd(s[..|s| - 1]);
      assert s[|r|..] == s[..|s| - 1][|r|..] + [s[|s| - 1]];
      r
    else s
  }

  /** JavaScript `s.trim()`. */
  function Trim(s: string): (r: string)
  {
    TrimEnd(TrimStart(s))
  }

  lemma AllSpaceConcat(a: string, b: string)
    requires AllSpace(a) && AllSpace(b)
    ensures AllSpace(a + b)
  {
    forall k | 0 <= k < |a + b| ensures IsJsSpace((a + b)[k]) {
      if k < |a| { assert (a + b)[k] == a[k]; } else { assert (a + b)[k] == b[k - |a|]; }
    }
  }

  /** Trimming leaves nothing exactly when the string is all whitespace
      (the empty string included). */
  lemma TrimEmptyIffAllSpace(s: string)
    ensures Trim(s) == [] <==> AllSpace(s)
  {
    var t := TrimStart(s);
    var front := s[..|s| - |t|];
    assert front + t == s;
    if Trim(s) == [] {
      assert t[0..] == t;
      AllSpaceConcat(front, t);
    } else {
      var r := Trim(s);
      assert r[0] == t[0];
      assert s[|s| - |t|] == t[0];
    }
  }

  /** The trimmed string is a contiguous piece of the original that neither
      begins nor ends with whitespace. */
  lemma TrimIsInnerSlice(s: string)
    ensures exists i, j :: 0 <= i <= j <= |s| && Trim(s) == s[i..j]
    ensures Trim(s) == [] || (!IsJsSpace(Trim(s)[0]) && !IsJsSpace(Trim(s)[|Trim(s)| - 1]))
  {
    var t := TrimStart(s);
    var r := TrimEnd(t);
    var i := |s| - |t|;
    assert t == s[i..];
    assert r == t[..|r|] == s[i..i + |r|];
    if r != [] {
      assert r[0] == t[0];
    }
  }

  function LowerChar(c: char): char {
    if 'A' <= c <= 'Z' then (c as int + 32) as char else c
  }

  function UpperChar(c: char): char {
    if 'a' <= c <= 'z' then (c as int - 32) as char else c
  }

  /** `toLowerCase()` restricted to the ASCII letters. */
  function Lower(s: string): (r: string)
    ensures |r| == |s|
    ensures forall k :: 0 <= k < |s| ==> r[k] == LowerChar(s[k])
  {
    seq(|s|, k requires 0 <= k < |s| => LowerChar(s[k]))
  }

  /** `toUpperCase()` restricted to the ASCII letters. */
  function Upper(s: string): (r: string)
    ensures |r| == |s|
    ensures forall k :: 0 <= k < |s| ==> r[k] == UpperChar(s[k])
  {
    seq(|s|, k requires 0 <= k < |s| => UpperChar(s[k]))
  }

  /** JavaScript `s.length`: the number of UTF-16 code units, so a
      character outside the Basic Multilingual Plane counts twice. */
  /** Every character lies in the Basic Multilingual Plane, so each is one
      UTF-16 code unit. */
  predicate InBmp(s: string) {
    forall k :: 0 <= k < |s| ==> s[k] as int < 0x10000
  }

  lemma InBmpSlice(s: string, i: nat, j: nat)
    requires InBmp(s) && i <= j <= |s|
    ensures InBmp(s[i..j])
  {
    forall k | 0 <= k < j - i ensures s[i..j][k] as int < 0x10000 {
      assert s[i..j][k] == s[i + k];
    }
  }

  lemma TrimInBmp(s: string)
    requires InBmp(s)
    ensures InBmp(Trim(s))
  {
    TrimIsInnerSlice(s);
    var i, j :| 0 <= i <= j <= |s| && Trim(s) == s[i..j];
    InBmpSlice(s, i, j);
  }

  lemma {:induction false} Utf16LengthOfBmp(s: string)
    requires InBmp(s)
    ensures Utf16Length(s) == |s|
  {
    if s != [] {
      assert InBmp(s[1..]) by {
        forall k | 0 <= k < |s[1..]| ensures s[1..][k] as int < 0x10000 {
          assert s[1..][k] == s[k + 1];
        }
      }
      Utf16LengthOfBmp(s[1..]);
    }
  }

  function Utf16Length(s: string): (n: nat)
    ensures |s| <= n <= 2 * |s|
  {
    if s == [] then 0
    else (if s[0] as int >= 0x10000 then 2 else 1) + Utf16Length(s[1..])
  }
}
