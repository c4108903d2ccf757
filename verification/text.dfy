/**
 The string operations the UDP command path applies to an incoming message
 before it looks anything up: Python's `str.strip()` (no argument),
 `str.lower()` and `str.split('+')`. Strings are `seq<char>`.
 */
module Text {

  /** The characters Python's `str.isspace()` accepts; `str.strip()` with no
      argument removes exactly these from both ends. */
  predicate IsSpace(c: char) {
    || '\U{0009}' <= c <= '\U{000D}'
    || '\U{001C}' <= c <= '\U{001F}'
    || c == ' '
    || c == '\U{0085}'
    || c == '\U{00A0}'
    || c == '\U{1680}'
    || '\U{2000}' <= c <= '\U{200A}'
    || c == '\U{2028}'
    || c == '\U{2029}'
    || c == '\U{202F}'
    || c == '\U{205F}'
    || c == '\U{3000}'
  }

  predicate AllSpace(s: string) {
    forall i :: 0 <= i < |s| ==> IsSpace(s[i])
  }

  /** Cutting `s` to `s[i..j]` removes whitespace margins only, and leaves
      neither end of the rest on whitespace. */
  predicate StripsAt(s: string, i: int, j: int) {
    && 0 <= i <= j <= |s|
    && (forall k :: 0 <= k < i ==> IsSpace(s[k]))
    && (forall k :: j <= k < |s| ==> IsSpace(s[k]))
    && (i < j ==> !IsSpace(s[i]) && !IsSpace(s[j - 1]))
  }

  /** `r` is what is left of `s` once its whitespace margins are cut away:
      an independent description of `str.strip()`. */
  ghost predicate IsStripOf(s: string, r: string) {
    exists i, j :: StripsAt(s, i, j) && r == s[i..j]
  }

  /** The first index at or after `i` that does not hold whitespace
      (or `|s|`): the left scan of `str.strip()`. */
  function SkipSpace(s: string, i: nat): (k: nat)
    requires i <= |s|
    ensures i <= k <= |s|
    ensures forall m :: i <= m < k ==> IsSpace(s[m])
    ensures k < |s| ==> !IsSpace(s[k])
    decreases |s| - i
  {
    if i < |s| && IsSpace(s[i]) then SkipSpace(s, i + 1) else i
  }

  /** Scanning down from `j` but not below `lo`, the end of the last
      non-whitespace run: the right scan of `str.strip()`. */
  function SkipSpaceBack(s: string, j: nat, lo: nat): (k: nat)
    requires lo <= j <= |s|
    ensures lo <= k <= j
    ensures forall m :: k <= m < j ==> IsSpace(s[m])
    ensures k > lo ==> !IsSpace(s[k - 1])
    decreases j
  {
    if j > lo && IsSpace(s[j - 1]) then SkipSpaceBack(s, j - 1, lo) else j
  }

  /** Python's `str.strip()`. */
  function Strip(s: string): (r: string)
    ensures IsStripOf(s, r)
  {
    var i := SkipSpace(s, 0);
    var j := SkipSpaceBack(s, |s|, i);
    assert StripsAt(s, i, j);
    s[i..j]
  }

  /** The margins of a strip are forced: a non-empty remainder starts and
      ends on the first and last non-space characters of `s`. */
  lemma StripsAtUnique(s: string, i1: int, j1: int, i2: int, j2: int)
    requires StripsAt(s, i1, j1) && StripsAt(s, i2, j2)
    ensures s[i1..j1] == s[i2..j2]
  {
    // an empty remainder means every character of `s` lies in a margin,
    // a non-empty one pins both of its ends
    if i1 == j1 && i2 < j2 {
      if i2 < i1 { assert false; } else { assert false; }
    }
    if i2 == j2 && i1 < j1 {
      if i1 < i2 { assert false; } else { assert false; }
    }
    if i1 < j1 && i2 < j2 {
      if i1 < i2 || i2 < i1 { assert false; }
      if j1 < j2 || j2 < j1 { assert false; }
    }
  }

  /** At most one string is the strip of `s`, so `Strip` is the only
      function meeting its contract. */
  lemma StripUnique(s: string, r1: string, r2: string)
    requires IsStripOf(s, r1) && IsStripOf(s, r2)
    ensures r1 == r2
  {
    var i1, j1 :| StripsAt(s, i1, j1) && r1 == s[i1..j1];
    var i2, j2 :| StripsAt(s, i2, j2) && r2 == s[i2..j2];
    StripsAtUnique(s, i1, j1, i2, j2);
  }

  /** The margins `Strip` cuts away. */
  lemma StripMargins(s: string) returns (i: int, j: int)
    ensures StripsAt(s, i, j) && Strip(s) == s[i..j]
  {
    i := SkipSpace(s, 0);
    j := SkipSpaceBack(s, |s|, i);
  }

  /** Neither end of `s` is whitespace. */
  predicate Bare(s: string) {
    s == [] || (!IsSpace(s[0]) && !IsSpace(s[|s| - 1]))
  }

  /** A message with no whitespace margin is its own strip. */
  lemma StripBare(s: string)
    requires Bare(s)
    ensures Strip(s) == s
  {
    var i, j := StripMargins(s);
    assert StripsAt(s, 0, |s|);
    StripsAtUnique(s, 0, |s|, i, j);
    assert s[0..|s|] == s;
  }

  /** Whitespace added at either end of a message does not survive `Strip`. */
  lemma StripPadded(s: string, pre: string, post: string)
    requires AllSpace(pre) && AllSpace(post)
    ensures Strip(pre + s + post) == Strip(s)
  {
    var i, j := StripMargins(s);
    var t := pre + s + post;
    var i', j' := |pre| + i, |pre| + j;
    assert forall k :: 0 <= k < |s| ==> t[|pre| + k] == s[k];
    assert forall k :: 0 <= k < |post| ==> t[|pre| + |s| + k] == post[k];
    assert t[i'..j'] == s[i..j];
    assert forall k :: 0 <= k < i' ==> IsSpace(t[k]) by {
      forall k | 0 <= k < i' ensures IsSpace(t[k]) {
        if k >= |pre| { assert t[|pre| + (k - |pre|)] == s[k - |pre|]; }
      }
    }
    assert forall k :: j' <= k < |t| ==> IsSpace(t[k]) by {
      forall k | j' <= k < |t| ensures IsSpace(t[k]) {
        if k < |pre| + |s| {
          assert t[|pre| + (k - |pre|)] == s[k - |pre|];
        } else {
          assert t[|pre| + |s| + (k - |pre| - |s|)] == post[k - |pre| - |s|];
        }
      }
    }
    assert StripsAt(t, i', j');
    var i2, j2 := StripMargins(t);
    StripsAtUnique(t, i', j', i2, j2);
  }

  predicate IsUpper(c: char) {
    'A' <= c <= 'Z'
  }

  function LowerChar(c: char): char {
    if IsUpper(c) then (c as int + 32) as char else c
  }

  /** Python's `str.lower()` restricted to the ASCII letters. */
  function Lower(s: string): (r: string)
    ensures |r| == |s|
    ensures forall i :: 0 <= i < |r| ==> !IsUpper(r[i])
    ensures forall i :: 0 <= i < |s| && IsUpper(s[i]) ==> r[i] as int == s[i] as int + 32
    ensures forall i :: 0 <= i < |s| && !IsUpper(s[i]) ==> r[i] == s[i]
  {
    seq(|s|, i requires 0 <= i < |s| => LowerChar(s[i]))
  }

  lemma LowerIdempotent(s: string)
    ensures Lower(Lower(s)) == Lower(s)
  {
  }

  /** Lower-casing a string with no ASCII capitals is the identity. */
  lemma LowerOfLower(s: string)
    requires forall i :: 0 <= i < |s| ==> !IsUpper(s[i])
    ensures Lower(s) == s
  {
  }

  lemma LowerSlice(s: string, i: int, j: int)
    requires 0 <= i <= j <= |s|
    ensures Lower(s[i..j]) == Lower(s)[i..j]
  {
  }

  lemma LowerKeepsSpace(s: string)
    ensures forall k :: 0 <= k < |s| ==> (IsSpace(Lower(s)[k]) <==> IsSpace(s[k]))
  {
  }

  /** Lower-casing never moves whitespace, so it commutes with `Strip`. */
  lemma StripLowerCommute(s: string)
    ensures Strip(Lower(s)) == Lower(Strip(s))
  {
    var i, j := StripMargins(s);
    var l := Lower(s);
    LowerSlice(s, i, j);
    LowerKeepsSpace(s);
    assert StripsAt(l, i, j);
    var i2, j2 := StripMargins(l);
    StripsAtUnique(l, i, j, i2, j2);
  }

  /** Python's `s.split(sep)`: the pieces between separators, in order.
      The empty string splits into one empty piece. */
  function Split(s: string, sep: char): (parts: seq<string>)
    ensures |parts| >= 1
    ensures forall k :: 0 <= k < |parts| ==> sep !in parts[k]
    decreases |s|
  {
    if |s| == 0 then [[]]
    else if s[0] == sep then [[]] + Split(s[1..], sep)
    else
      var rest := Split(s[1..], sep);
      [[s[0]] + rest[0]] + rest[1..]
  }

  /** `sep.join(parts)`. */
  function Join(parts: seq<string>, sep: char): string
    requires |parts| >= 1
    decreases |parts|
  {
    if |parts| == 1 then parts[0] else parts[0] + [sep] + Join(parts[1..], sep)
  }

  /** Joining the pieces back with the separator restores the message. */
  lemma {:induction false} JoinSplit(s: string, sep: char)
    ensures Join(Split(s, sep), sep) == s
    decreases |s|
  {
    if |s| == 0 {
    } else if s[0] == sep {
      JoinSplit(s[1..], sep);
      assert Split(s, sep)[1..] == Split(s[1..], sep);
    } else {
      var rest := Split(s[1..], sep);
      JoinSplit(s[1..], sep);
      if |rest| == 1 {
      } else {
        assert Split(s, sep)[1..] == rest[1..];
        assert Join(rest, sep) == rest[0] + [sep] + Join(rest[1..], sep);
      }
    }
  }

  /** A separator-free prefix is glued onto the first piece of the rest. */
  lemma {:induction false} SplitPrefix(w: string, t: string, sep: char)
    requires sep !in w
    ensures Split(w + t, sep) == [w + Split(t, sep)[0]] + Split(t, sep)[1..]
    decreases |w|
  {
    if |w| == 0 {
      var rest := Split(t, sep);
      assert w + t == t && w + rest[0] == rest[0];
      assert [rest[0]] + rest[1..] == rest;
    } else {
      assert (w + t)[0] == w[0];
      assert (w + t)[1..] == w[1..] + t;
      SplitPrefix(w[1..], t, sep);
      assert [w[0]] + (w[1..] + Split(t, sep)[0]) == w + Split(t, sep)[0];
    }
  }

  /** Splitting a join of separator-free pieces gives the pieces back. */
  lemma {:induction false} SplitJoin(parts: seq<string>, sep: char)
    requires |parts| >= 1
    requires forall k :: 0 <= k < |parts| ==> sep !in parts[k]
    ensures Split(Join(parts, sep), sep) == parts
    decreases |parts|
  {
    if |parts| == 1 {
      SplitPrefix(parts[0], [], sep);
      assert parts[0] + [] == parts[0];
    } else {
      var tail := Join(parts[1..], sep);
      SplitJoin(parts[1..], sep);
      assert Split([sep] + tail, sep) == [[]] + parts[1..];
      assert parts[0] + [sep] + tail == parts[0] + ([sep] + tail);
      SplitPrefix(parts[0], [sep] + tail, sep);
      assert parts[0] + [] == parts[0];
    }
  }
}
