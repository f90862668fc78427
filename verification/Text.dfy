/** Character sequences and the string operations the runtime relies on:
    substring occurrence, `find`/`index`, slicing, and `strip`. */
module Text {

  predicate OccursAt(s: string, pat: string, i: int) {
    0 <= i && i + |pat| <= |s| && s[i..i + |pat|] == pat
  }

  /** `s.find(pat, from)`: the leftmost occurrence at or after `from`, or -1. */
  function Find(s: string, pat: string, from: nat): (r: int)
    ensures r == -1 || (from <= r && OccursAt(s, pat, r))
    ensures forall i :: from <= i && OccursAt(s, pat, i) ==> 0 <= r <= i
  {
    if exists i :: from <= i <= |s| && OccursAt(s, pat, i) then
      LeftmostExists(s, pat, from);
      var i :| from <= i <= |s| && OccursAt(s, pat, i) && forall j | from <= j < i :: !OccursAt(s, pat, j);
      i
    else -1
  }

  lemma LeftmostExists(s: string, pat: string, from: nat)
    requires exists i :: from <= i <= |s| && OccursAt(s, pat, i)
    ensures exists i :: from <= i <= |s| && OccursAt(s, pat, i) && forall j | from <= j < i :: !OccursAt(s, pat, j)
  {
    var i :| from <= i <= |s| && OccursAt(s, pat, i);
    while exists j :: from <= j < i && OccursAt(s, pat, j)
      invariant from <= i <= |s| && OccursAt(s, pat, i)
      decreases i
    {
      var j :| from <= j < i && OccursAt(s, pat, j);
      i := j;
    }
  }

  predicate Has(s: string, pat: string) {
    Find(s, pat, 0) >= 0
  }

  /** `s[lo:hi]` for non-negative bounds: empty when the bounds cross. */
  function Slice(s: string, lo: nat, hi: nat): string {
    var h := if hi < |s| then hi else |s|;
    if lo <= h then s[lo..h] else ""
  }

  /** ASCII letters in lower case, other characters as they are. */
  function LowerChar(c: char): char {
    if 'A' <= c <= 'Z' then (c as int + 32) as char else c
  }

  function Lower(s: string): string {
    seq(|s|, i requires 0 <= i < |s| => LowerChar(s[i]))
  }

  predicate LetterOrDigit(c: char) {
    c in "abcdefghijklmnopqrstuvwxyz" || c in "ABCDEFGHIJKLMNOPQRSTUVWXYZ" || c in "0123456789"
  }

  lemma SmallLetters(c: char)
    ensures c in "abcdefghijklmnopqrstuvwxyz" <==> 'a' <= c <= 'z'
  {
    var all := "abcdefghijklmnopqrstuvwxyz";
    assert forall k: int | 0 <= k < 26 :: all[k] == ('a' as int + k) as char;
    if 'a' <= c <= 'z' { assert all[c as int - 'a' as int] == c; }
  }

  lemma Capitals(c: char)
    ensures c in "ABCDEFGHIJKLMNOPQRSTUVWXYZ" <==> 'A' <= c <= 'Z'
  {
    var all := "ABCDEFGHIJKLMNOPQRSTUVWXYZ";
    assert forall k: int | 0 <= k < 26 :: all[k] == ('A' as int + k) as char;
    if 'A' <= c <= 'Z' { assert all[c as int - 'A' as int] == c; }
  }

  lemma Digits(c: char)
    ensures c in "0123456789" <==> '0' <= c <= '9'
  {
    var all := "0123456789";
    assert forall k: int | 0 <= k < 10 :: all[k] == ('0' as int + k) as char;
    if '0' <= c <= '9' { assert all[c as int - '0' as int] == c; }
  }

  /** Lowering keeps the length, turns each capital into its small letter, and leaves every
      other character as it is. */
  lemma LowerIs(s: string)
    ensures |Lower(s)| == |s|
    ensures forall i, k | 0 <= i < |s| && 0 <= k < 26 && s[i] == "ABCDEFGHIJKLMNOPQRSTUVWXYZ"[k] ::
      Lower(s)[i] == "abcdefghijklmnopqrstuvwxyz"[k]
    ensures forall i | 0 <= i < |s| && s[i] !in "ABCDEFGHIJKLMNOPQRSTUVWXYZ" :: Lower(s)[i] == s[i]
  {
    forall i | 0 <= i < |s| { LowerCharIs(s[i]); }
  }

  lemma LowerCharIs(c: char)
    ensures forall k | 0 <= k < 26 && c == "ABCDEFGHIJKLMNOPQRSTUVWXYZ"[k] :: LowerChar(c) == "abcdefghijklmnopqrstuvwxyz"[k]
    ensures c !in "ABCDEFGHIJKLMNOPQRSTUVWXYZ" ==> LowerChar(c) == c
  {
    var upper, lower := "ABCDEFGHIJKLMNOPQRSTUVWXYZ", "abcdefghijklmnopqrstuvwxyz";
    assert forall k: int | 0 <= k < 26 :: upper[k] == ('A' as int + k) as char && lower[k] == ('a' as int + k) as char;
    if 'A' <= c <= 'Z' { assert upper[c as int - 'A' as int] == c; }
  }

  /** `"".join`. */
  function Joined(parts: seq<string>): string {
    if parts == [] then "" else Joined(parts[..|parts| - 1]) + parts[|parts| - 1]
  }

  lemma JoinedOne(part: string)
    ensures Joined([part]) == part
  {
    assert [part][..0] == [];
  }

  /** Joining in two goes is joining at once: the parts stand in order, nothing between. */
  lemma {:induction false} JoinedAll(a: seq<string>, b: seq<string>)
    ensures Joined(a + b) == Joined(a) + Joined(b)
  {
    if b == [] {
      assert a + b == a;
    } else {
      var n := |b| - 1;
      assert (a + b)[..|a + b| - 1] == a + b[..n];
      JoinedAll(a, b[..n]);
    }
  }

  // ---- whitespace ----

  predicate IsSpace(c: char) {
    c == ' ' || '\t' <= c <= '\r' || '\U{1C}' <= c <= '\U{1F}'
  }

  lemma SpacesAre(c: char)
    ensures IsSpace(c) <==> c in " \t\n\r\U{B}\U{C}\U{1C}\U{1D}\U{1E}\U{1F}"
  {
    var all := " \t\n\r\U{B}\U{C}\U{1C}\U{1D}\U{1E}\U{1F}";
    assert all[0] == ' ' && all[1] == '\t' && all[2] == '\n' && all[3] == '\r' && all[4] == '\U{B}' && all[5] == '\U{C}';
    assert all[6] == '\U{1C}' && all[7] == '\U{1D}' && all[8] == '\U{1E}' && all[9] == '\U{1F}';
  }

  function TrimLeft(s: string): string {
    if |s| > 0 && IsSpace(s[0]) then TrimLeft(s[1..]) else s
  }

  function TrimRight(s: string): string {
    if |s| > 0 && IsSpace(s[|s| - 1]) then TrimRight(s[..|s| - 1]) else s
  }

  function Strip(s: string): string {
    TrimRight(TrimLeft(s))
  }

  /** No surrounding whitespace, so `Strip` leaves it alone. */
  predicate Tight(s: string) {
    |s| > 0 ==> !IsSpace(s[0]) && !IsSpace(s[|s| - 1])
  }

  lemma StripTight(s: string)
    ensures Tight(Strip(s))
    ensures Tight(s) ==> Strip(s) == s
    ensures |Strip(s)| <= |s|
  {
    TrimLeftStarts(s);
    TrimRightEnds(TrimLeft(s));
  }

  lemma {:induction false} TrimLeftStarts(s: string)
    ensures |TrimLeft(s)| <= |s|
    ensures TrimLeft(s) == s[|s| - |TrimLeft(s)|..]
    ensures |TrimLeft(s)| > 0 ==> !IsSpace(TrimLeft(s)[0])
    ensures forall i | 0 <= i < |s| - |TrimLeft(s)| :: IsSpace(s[i])
  {
    if |s| > 0 && IsSpace(s[0]) {
      TrimLeftStarts(s[1..]);
      var k := |s| - |TrimLeft(s)|;
      forall i | 0 <= i < k ensures IsSpace(s[i]) {
        if i > 0 { assert s[i] == s[1..][i - 1]; }
      }
    }
  }

  lemma {:induction false} TrimRightEnds(s: string)
    ensures |TrimRight(s)| <= |s|
    ensures TrimRight(s) == s[..|TrimRight(s)|]
    ensures |TrimRight(s)| > 0 ==> !IsSpace(TrimRight(s)[|TrimRight(s)| - 1])
    ensures forall i | |TrimRight(s)| <= i < |s| :: IsSpace(s[i])
  {
    if |s| > 0 && IsSpace(s[|s| - 1]) {
      TrimRightEnds(s[..|s| - 1]);
    }
  }

  /** A string is its strip with whitespace on both sides, and only one
      split of that shape exists. */
  lemma StripIs(s: string, l: nat, h: nat)
    requires l <= h <= |s|
    requires forall i | 0 <= i < l :: IsSpace(s[i])
    requires forall i | h <= i < |s| :: IsSpace(s[i])
    requires l < h ==> !IsSpace(s[l]) && !IsSpace(s[h - 1])
    ensures Strip(s) == s[l..h]
  {
    TrimLeftStarts(s);
    var t := TrimLeft(s);
    TrimRightEnds(t);
    var k := |s| - |t|;
    assert forall i | 0 <= i < |t| :: t[i] == s[k + i];
    if l < h {
      assert k == l;
      assert |TrimRight(t)| == h - l;
      assert s[l..][..h - l] == s[l..h];
    } else {
      assert forall i | 0 <= i < |s| :: IsSpace(s[i]);
      assert |t| == 0;
    }
  }

  /** Bounds of the stripped text inside `s`. */
  lemma StripBounds(s: string) returns (l: nat, h: nat)
    ensures l <= h <= |s| && Strip(s) == s[l..h]
    ensures forall i | 0 <= i < l :: IsSpace(s[i])
    ensures forall i | h <= i < |s| :: IsSpace(s[i])
    ensures l < h ==> !IsSpace(s[l]) && !IsSpace(s[h - 1])
  {
    TrimLeftStarts(s);
    var t := TrimLeft(s);
    TrimRightEnds(t);
    l := |s| - |t|;
    h := l + |TrimRight(t)|;
    assert s[l..][..h - l] == s[l..h];
    forall i | h <= i < |s| ensures IsSpace(s[i]) {
      assert s[i] == t[i - l];
    }
  }

  /** Whitespace added at either end does not change the strip. */
  lemma StripPadded(pre: string, s: string, post: string)
    requires forall i | 0 <= i < |pre| :: IsSpace(pre[i])
    requires forall i | 0 <= i < |post| :: IsSpace(post[i])
    ensures Strip(pre + s + post) == Strip(s)
  {
    var l, h := StripBounds(s);
    var p := pre + s + post;
    assert p[|pre| + l..|pre| + h] == s[l..h];
    if l == h {
      assert forall i | 0 <= i < |s| :: IsSpace(s[i]);
      StripIs(p, 0, 0);
    } else {
      StripIs(p, |pre| + l, |pre| + h);
    }
  }

  // ---- occurrences in concatenations ----

  /** Characters of an occurrence. */
  lemma OccursChars(s: string, pat: string, i: int)
    requires OccursAt(s, pat, i)
    ensures forall k | 0 <= k < |pat| :: s[i + k] == pat[k]
  {
    assert forall k | 0 <= k < |pat| :: s[i..i + |pat|][k] == pat[k];
  }

  /** One character of an occurrence. */
  lemma CharOf(s: string, pat: string, i: int, k: int)
    requires OccursAt(s, pat, i) && 0 <= k < |pat|
    ensures s[i + k] == pat[k]
  {
    OccursChars(s, pat, i);
  }

  lemma OccursByChars(s: string, pat: string, i: int)
    requires 0 <= i && i + |pat| <= |s|
    requires forall k | 0 <= k < |pat| :: s[i + k] == pat[k]
    ensures OccursAt(s, pat, i)
  {
    assert s[i..i + |pat|] == pat;
  }

  /** An occurrence lying in one part of `x + y` is an occurrence in that part. */
  lemma OccursInParts(x: string, y: string, pat: string, i: int)
    ensures 0 <= i && i + |pat| <= |x| ==> (OccursAt(x + y, pat, i) <==> OccursAt(x, pat, i))
    ensures |x| <= i ==> (OccursAt(x + y, pat, i) <==> OccursAt(y, pat, i - |x|))
  {
    if 0 <= i && i + |pat| <= |x| {
      assert (x + y)[i..i + |pat|] == x[i..i + |pat|];
    }
    if |x| <= i && i + |pat| <= |x + y| {
      assert (x + y)[i..i + |pat|] == y[i - |x|..i - |x| + |pat|];
    }
  }

  /** `Find` is pinned down by one occurrence with none before it. */
  lemma FindIs(s: string, pat: string, i: nat)
    requires OccursAt(s, pat, i)
    requires forall j | 0 <= j < i :: !OccursAt(s, pat, j)
    ensures Find(s, pat, 0) == i
  {
  }

  lemma FindNone(s: string, pat: string)
    requires forall j :: !OccursAt(s, pat, j)
    ensures Find(s, pat, 0) == -1
  {
  }
}
