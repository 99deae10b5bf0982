/** Strings joined by a separator character, and letter case. */
module Text {
  lemma SeparatorInside(whole: string, p: string, s: string, p': string, s': string, c: char)
    requires whole == p + [c] + s == p' + [c] + s' && |p| < |p'|
    ensures c in p' && c in s
  {
    assert p'[|p|] == whole[|p|] == c;
    assert s[|p'| - |p| - 1] == whole[|p'|] == c;
  }

  /** The part before the first, or after the last, separator determines both parts. */
  lemma SplitAtSeparator(p: string, s: string, p': string, s': string, c: char)
    requires p + [c] + s == p' + [c] + s'
    requires (c !in p && c !in p') || (c !in s && c !in s')
    ensures p == p' && s == s'
  {
    var whole := p + [c] + s;
    if |p| < |p'| { SeparatorInside(whole, p, s, p', s', c); }
    if |p'| < |p| { SeparatorInside(whole, p', s', p, s, c); }
    assert p == whole[..|p|] && p' == whole[..|p'|];
    assert s == whole[|p| + 1..] && s' == whole[|p'| + 1..];
  }

  function LowerChar(c: char): char {
    if 'A' <= c <= 'Z' then (c as int + 32) as char else c
  }

  /** `lower()`, on ASCII letters. */
  function Lower(s: string): string {
    seq(|s|, i requires 0 <= i < |s| => LowerChar(s[i]))
  }

  /** White space, as `strip()` sees it. */
  predicate IsSpace(c: char) {
    var n := c as int;
    || 9 <= n <= 13 || 28 <= n <= 32 || n == 0x85 || n == 0xA0 || n == 0x1680
    || 0x2000 <= n <= 0x200A || n == 0x2028 || n == 0x2029 || n == 0x202F || n == 0x205F || n == 0x3000
  }

  function StripLeft(s: string): string {
    if s != "" && IsSpace(s[0]) then StripLeft(s[1..]) else s
  }

  function StripRight(s: string): string {
    if s != "" && IsSpace(s[|s| - 1]) then StripRight(s[..|s| - 1]) else s
  }

  /** `strip()`. */
  function Strip(s: string): string { StripRight(StripLeft(s)) }

  predicate Padded(s: string) {
    s != "" && (IsSpace(s[0]) || IsSpace(s[|s| - 1]))
  }

  lemma {:induction false} StripLeftShortens(s: string)
    ensures |StripLeft(s)| <= |s|
    ensures s != "" && IsSpace(s[0]) ==> |StripLeft(s)| < |s|
    ensures exists k :: 0 <= k <= |s| && StripLeft(s) == s[k..]
  {
    if s != "" && IsSpace(s[0]) {
      StripLeftShortens(s[1..]);
      var k :| 0 <= k <= |s| - 1 && StripLeft(s[1..]) == s[1..][k..];
      assert StripLeft(s) == s[k + 1..];
    } else {
      assert StripLeft(s) == s[0..];
    }
  }

  lemma {:induction false} StripRightShortens(s: string)
    ensures |StripRight(s)| <= |s|
    ensures s != "" && IsSpace(s[|s| - 1]) ==> |StripRight(s)| < |s|
  {
    if s != "" && IsSpace(s[|s| - 1]) { StripRightShortens(s[..|s| - 1]); }
  }

  /** Stripping changes exactly the padded strings. */
  lemma StripExactly(s: string)
    ensures Strip(s) == s <==> !Padded(s)
  {
    StripLeftShortens(s);
    StripRightShortens(StripLeft(s));
  }

  lemma SameLengthStrips(s: string)
    requires |Strip(s)| == |s|
    ensures Strip(s) == s
  {
    StripExactly(s);
    StripLeftShortens(s);
    StripRightShortens(StripLeft(s));
  }

  /** Stripping removes nothing but white space at the ends. */
  lemma {:induction false} StripLeftKeeps(s: string, c: char)
    requires !IsSpace(c)
    ensures c in StripLeft(s) <==> c in s
  {
    if s != "" && IsSpace(s[0]) {
      StripLeftKeeps(s[1..], c);
      assert s == [s[0]] + s[1..];
    }
  }

  lemma {:induction false} StripRightKeeps(s: string, c: char)
    requires !IsSpace(c)
    ensures c in StripRight(s) <==> c in s
  {
    if s != "" && IsSpace(s[|s| - 1]) {
      StripRightKeeps(s[..|s| - 1], c);
      assert s == s[..|s| - 1] + [s[|s| - 1]];
    }
  }

  lemma StripKeeps(s: string, c: char)
    requires !IsSpace(c)
    ensures c in Strip(s) <==> c in s
  {
    StripLeftKeeps(s, c);
    StripRightKeeps(StripLeft(s), c);
  }

  /** Stripping cuts off exactly the white space at the two ends: what is cut is white space, and what is left neither
      begins nor ends with any. */
  lemma StripMeans(s: string) returns (i: nat, j: nat)
    ensures i <= j <= |s| && Strip(s) == s[i..j] && !Padded(Strip(s))
    ensures forall k | 0 <= k < i || j <= k < |s| :: IsSpace(s[k])
  {
    i := StripLeftMeans(s);
    var n := StripRightMeans(s[i..]);
    j := i + n;
    assert s[i..][..j - i] == s[i..j];
    assert forall k | i <= k < |s| :: s[k] == s[i..][k - i];
  }

  lemma {:induction false} StripLeftMeans(s: string) returns (i: nat)
    ensures i <= |s| && StripLeft(s) == s[i..] && forall k | 0 <= k < i :: IsSpace(s[k])
    ensures i < |s| ==> !IsSpace(s[i])
  {
    if s != "" && IsSpace(s[0]) {
      var n := StripLeftMeans(s[1..]);
      i := n + 1;
      assert s[1..][n..] == s[i..];
      assert forall k | 0 < k <= n :: s[k] == s[1..][k - 1];
      assert i < |s| ==> s[i] == s[1..][n];
    } else {
      i := 0;
      assert s[0..] == s;
    }
  }

  lemma {:induction false} StripRightMeans(s: string) returns (j: nat)
    ensures j <= |s| && StripRight(s) == s[..j] && forall k | j <= k < |s| :: IsSpace(s[k])
    ensures j > 0 ==> !IsSpace(s[j - 1])
  {
    if s != "" && IsSpace(s[|s| - 1]) {
      j := StripRightMeans(s[..|s| - 1]);
      assert s[..|s| - 1][..j] == s[..j];
      assert forall k | 0 <= k < |s| - 1 :: s[k] == s[..|s| - 1][k];
    } else {
      j := |s|;
      assert s[..|s|] == s;
    }
  }

  /** The length up to and including the last `c`; zero if there is none. */
  function UpToLast(s: string, c: char): (n: nat)
    ensures n <= |s| && c !in s[n..]
    ensures n > 0 ==> s[n - 1] == c
  {
    if s == "" || s[|s| - 1] == c then |s|
    else
      assert s == s[..|s| - 1] + [s[|s| - 1]];
      var n := UpToLast(s[..|s| - 1], c);
      assert s[n..] == s[..|s| - 1][n..] + [s[|s| - 1]];
      n
  }

  lemma UpToLastIs(s: string, c: char, n: nat)
    requires 0 < n <= |s| && s[n - 1] == c && forall k | n <= k < |s| :: s[k] != c
    ensures UpToLast(s, c) == n
  {
    var m := UpToLast(s, c);
    assert forall k | m <= k < |s| :: s[m..][k - m] == s[k];
    assert forall k | m <= k < |s| :: s[k] != c;
  }

  predicate AllLower(s: string) {
    forall i | 0 <= i < |s| :: !('A' <= s[i] <= 'Z')
  }

  lemma LowerExactly(s: string)
    ensures Lower(s) == s <==> AllLower(s)
  {
    if Lower(s) == s {
      forall i | 0 <= i < |s| ensures !('A' <= s[i] <= 'Z') { assert Lower(s)[i] == LowerChar(s[i]); }
    }
  }
}
