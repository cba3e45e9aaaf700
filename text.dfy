/**
 * The Python `str` operations the bot relies on: `strip()`, `lower()`,
 * `in` (substring test), `startswith`, `replace` and `' '.join`.
 * Strings are sequences of Unicode scalar values, as Python's are.
 */
module Text {

  /** Python's `str.isspace()` for one character, by code point: the characters
      `strip()` removes. */
  predicate IsSpace(c: char) {
    var n := c as int;
    (0x09 <= n <= 0x0D) || (0x1C <= n <= 0x20) || n == 0x85 || n == 0xA0
    || n == 0x1680 || (0x2000 <= n <= 0x200A) || n == 0x2028 || n == 0x2029
    || n == 0x202F || n == 0x205F || n == 0x3000
  }

  /** A string with no whitespace at either end: what `strip()` leaves. */
  predicate Trimmed(s: string) {
    s == [] || (!IsSpace(s[0]) && !IsSpace(s[|s| - 1]))
  }

  /** The first index at or after `i` that does not hold whitespace, or `|s|`. */
  function SkipSpaces(s: string, i: nat): (k: nat)
    requires i <= |s|
    ensures i <= k <= |s| && (k == |s| || !IsSpace(s[k]))
    decreases |s| - i
  {
    if i < |s| && IsSpace(s[i]) then SkipSpaces(s, i + 1) else i
  }

  /** The last index at or before `j` that does not follow whitespace, or 0. */
  function SkipSpacesBack(s: string, j: nat): (k: nat)
    requires j <= |s|
    ensures k <= j && (k == 0 || !IsSpace(s[k - 1]))
    decreases j
  {
    if j > 0 && IsSpace(s[j - 1]) then SkipSpacesBack(s, j - 1) else j
  }

  /** `str.strip()`: the part of the input between its leading and its trailing
      whitespace; the empty string when there is nothing else. */
  function Strip(s: string): (r: string)
    ensures Trimmed(r) && |r| <= |s|
  {
    var a := SkipSpaces(s, 0);
    var b := SkipSpacesBack(s, |s|);
    if b <= a then [] else s[a..b]
  }

  /** Everything `SkipSpaces` passes over is whitespace. */
  lemma {:induction false} SkipSpacesPassesSpace(s: string, i: nat, k: int)
    requires i <= |s| && i <= k < SkipSpaces(s, i)
    ensures IsSpace(s[k])
    decreases |s| - i
  {
    if k > i {
      SkipSpacesPassesSpace(s, i + 1, k);
    }
  }

  /** Everything `SkipSpacesBack` passes over is whitespace. */
  lemma {:induction false} SkipSpacesBackPassesSpace(s: string, j: nat, k: int)
    requires j <= |s| && SkipSpacesBack(s, j) <= k < j
    ensures IsSpace(s[k])
    decreases j
  {
    if k < j - 1 {
      SkipSpacesBackPassesSpace(s, j - 1, k);
    }
  }

  /** `strip()` keeps a contiguous part of its input and removes only whitespace
      around it. */
  lemma StripRemovesSpaces(s: string)
    ensures var i := SkipSpaces(s, 0); var r := Strip(s);
      i + |r| <= |s| && r == s[i..i + |r|]
      && (forall k :: 0 <= k < i ==> IsSpace(s[k]))
      && (forall k :: i + |r| <= k < |s| ==> IsSpace(s[k]))
  {
    var a := SkipSpaces(s, 0);
    var b := SkipSpacesBack(s, |s|);
    forall k | 0 <= k < a
      ensures IsSpace(s[k])
    {
      SkipSpacesPassesSpace(s, 0, k);
    }
    forall k | a + |Strip(s)| <= k < |s|
      ensures IsSpace(s[k])
    {
      SkipSpacesBackPassesSpace(s, |s|, k);
    }
  }

  /** `strip()` gives the empty string exactly when the input is all whitespace. */
  lemma StripEmptyIffAllSpace(s: string)
    ensures Strip(s) == [] <==> forall k :: 0 <= k < |s| ==> IsSpace(s[k])
  {
    StripRemovesSpaces(s);
  }

  /** `strip()` leaves a string that already has no outer whitespace as it is. */
  lemma StripTrimmed(s: string)
    requires Trimmed(s)
    ensures Strip(s) == s
  {
  }

  /** Stripping twice is stripping once. */
  lemma StripIdempotent(s: string)
    ensures Strip(Strip(s)) == Strip(s)
  {
    StripTrimmed(Strip(s));
  }

  /** Case folding of one character as `str.lower()` does it for the ASCII letters
      and for KELVIN SIGN, the one other character that folds to an ASCII letter
      of `vosk-model`. */
  function LowerChar(c: char): char {
    if 'A' <= c <= 'Z' then (c as int + 32) as char
    else if c == 'K' then 'k'
    else c
  }

  /** `str.lower()`, character by character. */
  function Lower(s: string): (r: string)
    ensures |r| == |s|
    ensures forall i :: 0 <= i < |s| ==> !('A' <= r[i] <= 'Z')
    ensures forall i :: 0 <= i < |s| && 'A' <= s[i] <= 'Z' ==> r[i] as int == s[i] as int + 32
    ensures forall i :: 0 <= i < |s| && s[i] == 'K' ==> r[i] == 'k'
    ensures forall i :: 0 <= i < |s| && !('A' <= s[i] <= 'Z') && s[i] != 'K' ==> r[i] == s[i]
  {
    seq(|s|, i requires 0 <= i < |s| => LowerChar(s[i]))
  }

  /** `s.startswith(p)`. */
  predicate StartsWith(s: string, p: string) {
    |p| <= |s| && s[..|p|] == p
  }

  /** `p` occurs in `s` starting at offset `i`. */
  predicate OccursAt(s: string, p: string, i: int) {
    0 <= i && i + |p| <= |s| && s[i..i + |p|] == p
  }

  /** Python's `p in s` for strings: `p` occurs somewhere in `s`. */
  predicate Contains(s: string, p: string) {
    exists i | 0 <= i <= |s| - |p| :: OccursAt(s, p, i)
  }

  /** An occurrence in `x + y` at or past the end of `x` is an occurrence in `y`. */
  lemma OccursAtShift(x: string, y: string, p: string, k: int)
    requires 0 <= k
    ensures OccursAt(x + y, p, |x| + k) <==> OccursAt(y, p, k)
  {
    if k + |p| <= |y| {
      assert (x + y)[|x| + k..|x| + k + |p|] == y[k..k + |p|];
    }
  }

  /** `s.replace("", rep)` from offset `i` on: `rep` before every character and at the end. */
  function InsertAround(s: string, rep: string, i: nat): string
    requires i <= |s|
    decreases |s| - i
  {
    if i == |s| then rep else rep + [s[i]] + InsertAround(s, rep, i + 1)
  }

  /** `s.replace(pat, rep)` for a non-empty `pat`, from offset `i` on. */
  function ReplaceFrom(s: string, pat: string, rep: string, i: nat): string
    requires |pat| > 0 && i <= |s|
    decreases |s| - i
  {
    if OccursAt(s, pat, i) then rep + ReplaceFrom(s, pat, rep, i + |pat|)
    else if i == |s| then []
    else [s[i]] + ReplaceFrom(s, pat, rep, i + 1)
  }

  /** `s.replace(pat, rep)`: every occurrence of `pat`, scanning from the left and
      without overlaps, is replaced by `rep`. An empty `pat` inserts `rep` before
      every character and at the end, as Python does. */
  function Replace(s: string, pat: string, rep: string): string {
    if |pat| == 0 then InsertAround(s, rep, 0) else ReplaceFrom(s, pat, rep, 0)
  }

  /** Past the last occurrence of a non-empty `pat`, the rest is copied. */
  lemma {:induction false} ReplaceFromAbsent(s: string, pat: string, rep: string, i: nat)
    requires |pat| > 0 && i <= |s|
    requires forall k :: i <= k <= |s| ==> !OccursAt(s, pat, k)
    ensures ReplaceFrom(s, pat, rep, i) == s[i..]
    decreases |s| - i
  {
    if i < |s| {
      ReplaceFromAbsent(s, pat, rep, i + 1);
      assert s[i..] == [s[i]] + s[i + 1..];
    }
  }

  /** With no occurrence of a non-empty `pat`, `replace` returns its input. */
  lemma ReplaceAbsent(s: string, pat: string, rep: string)
    requires |pat| > 0 && !Contains(s, pat)
    ensures Replace(s, pat, rep) == s
  {
    ReplaceFromAbsent(s, pat, rep, 0);
  }

  lemma {:induction false} InsertAroundLength(s: string, rep: string, i: nat)
    requires i <= |s|
    ensures |InsertAround(s, rep, i)| == |s| - i + (|s| - i + 1) * |rep|
    decreases |s| - i
  {
    if i < |s| {
      InsertAroundLength(s, rep, i + 1);
    }
  }

  lemma {:induction false} ReplaceFromLength(s: string, pat: string, rep: string, i: nat)
    requires |pat| > 0 && |pat| == |rep| && i <= |s|
    ensures |ReplaceFrom(s, pat, rep, i)| == |s| - i
    decreases |s| - i
  {
    if OccursAt(s, pat, i) {
      ReplaceFromLength(s, pat, rep, i + |pat|);
    } else if i < |s| {
      ReplaceFromLength(s, pat, rep, i + 1);
    }
  }

  /** Replacing by a string of the same length keeps the length. */
  lemma ReplaceKeepsLength(s: string, pat: string, rep: string)
    requires |pat| == |rep|
    ensures |Replace(s, pat, rep)| == |s|
  {
    if |pat| == 0 {
      InsertAroundLength(s, rep, 0);
    } else {
      ReplaceFromLength(s, pat, rep, 0);
    }
  }

  /** Over a stretch where no occurrence of `pat` starts, `replace` copies the input. */
  lemma {:induction false} ReplaceFromSkips(s: string, pat: string, rep: string, i: nat, j: nat)
    requires |pat| > 0 && i <= j <= |s|
    requires forall k :: i <= k < j ==> !OccursAt(s, pat, k)
    ensures ReplaceFrom(s, pat, rep, i) == s[i..j] + ReplaceFrom(s, pat, rep, j)
    decreases j - i
  {
    if i < j {
      var r := ReplaceFrom(s, pat, rep, j);
      ReplaceFromSkips(s, pat, rep, i + 1, j);
      assert ReplaceFrom(s, pat, rep, i) == [s[i]] + (s[i + 1..j] + r);
      assert [s[i]] + (s[i + 1..j] + r) == ([s[i]] + s[i + 1..j]) + r;
      assert s[i..j] == [s[i]] + s[i + 1..j];
    }
  }

  /** A prefix of `replace`'s output that avoids the first character of `rep`
      was copied from the input. */
  lemma {:induction false} ReplaceFromCopies(s: string, pat: string, rep: string, i: nat, w: string)
    requires |pat| > 0 && |rep| > 0 && i <= |s|
    requires forall k :: 0 <= k < |w| ==> w[k] != rep[0]
    requires StartsWith(ReplaceFrom(s, pat, rep, i), w)
    ensures OccursAt(s, w, i)
    decreases |w|
  {
    var out := ReplaceFrom(s, pat, rep, i);
    if w != [] {
      assert out[0] == w[0];
      if OccursAt(s, pat, i) {
        assert false;
      }
      var rest := ReplaceFrom(s, pat, rep, i + 1);
      assert out == [s[i]] + rest;
      assert StartsWith(rest, w[1..]) by {
        assert rest[..|w| - 1] == out[1..|w|];
      }
      forall k | 0 <= k < |w[1..]|
        ensures w[1..][k] != rep[0]
      {
        assert w[1..][k] == w[k + 1];
      }
      ReplaceFromCopies(s, pat, rep, i + 1, w[1..]);
      assert s[i..i + |w|] == [s[i]] + s[i + 1..i + 1 + |w[1..]|];
    }
  }

  /** `sep.join(xs)`. */
  function Join(sep: string, xs: seq<string>): string
    decreases |xs|
  {
    if xs == [] then []
    else if |xs| == 1 then xs[0]
    else xs[0] + sep + Join(sep, xs[1..])
  }

  /** Joining non-empty strings without outer whitespace gives a string without
      outer whitespace, and that is empty exactly when there was nothing to join. */
  lemma {:induction false} JoinTrimmed(sep: string, xs: seq<string>)
    requires forall i :: 0 <= i < |xs| ==> xs[i] != [] && Trimmed(xs[i])
    ensures Trimmed(Join(sep, xs))
    ensures Join(sep, xs) == [] <==> xs == []
    ensures xs != [] ==> Join(sep, xs)[0] == xs[0][0]
    ensures xs != [] ==> Join(sep, xs)[|Join(sep, xs)| - 1] == xs[|xs| - 1][|xs[|xs| - 1]| - 1]
    decreases |xs|
  {
    if |xs| > 1 {
      JoinTrimmed(sep, xs[1..]);
      var j := Join(sep, xs[1..]);
      assert Join(sep, xs) == xs[0] + sep + j;
      assert Join(sep, xs)[|Join(sep, xs)| - 1] == j[|j| - 1];
    }
  }
}
