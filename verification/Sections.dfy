/** Marker-delimited sections inside an artifact's text: the section edits and
    the section load shared by the artifact entry points. */
module Sections {
  import opened Text

  const OPEN := "<!-- section:"
  const CLOSE := " -->"
  const END_OPEN := "<!-- end:"

  /** The start and end marker of one section. */
  datatype Markers = Markers(start: string, end: string)

  function MarkersOf(name: string): Markers {
    Markers(OPEN + name + CLOSE, END_OPEN + name + CLOSE)
  }

  /** The part of a block that follows its start marker. */
  function Body(m: Markers, content: string): string {
    "\n" + content + "\n" + m.end
  }

  function Block(m: Markers, content: string): string {
    m.start + Body(m, content)
  }

  /** The section is recognised only when both markers occur somewhere. */
  predicate Marked(t: string, m: Markers) {
    Has(t, m.start) && Has(t, m.end)
  }

  function StartAt(t: string, m: Markers): int { Find(t, m.start, 0) }

  function EndAt(t: string, m: Markers): int { Find(t, m.end, 0) }

  function Before(t: string, m: Markers): string
    requires Marked(t, m)
  {
    t[..StartAt(t, m)]
  }

  function After(t: string, m: Markers): string
    requires Marked(t, m)
  {
    t[EndAt(t, m) + |m.end|..]
  }

  function ReplaceSection(t: string, m: Markers, content: string): string {
    if Marked(t, m) then Before(t, m) + Block(m, content) + After(t, m)
    else t + ("\n" + Block(m, content))
  }

  function DeleteSection(t: string, m: Markers): string
    requires Marked(t, m)
  {
    Before(t, m) + After(t, m)
  }

  /** What a replacement writes, marker by marker. */
  lemma ReplaceWrites(t: string, name: string, content: string)
    ensures var start, end := "<!-- section:" + name + " -->", "<!-- end:" + name + " -->";
      var block := start + "\n" + content + "\n" + end;
      ReplaceSection(t, MarkersOf(name), content) ==
        if Has(t, start) && Has(t, end) then t[..Find(t, start, 0)] + block + t[Find(t, end, 0) + |end|..]
        else t + "\n" + block
  {
    hide Find, Has;
    var m := MarkersOf(name);
    assert m.start + "\n" + content + "\n" + m.end == Block(m, content);
  }

  /** The text between the first start and the first end marker. */
  function Inside(t: string, m: Markers): string
    requires Marked(t, m)
  {
    Slice(t, StartAt(t, m) + |m.start|, EndAt(t, m))
  }

  /** The stripped text between a marker found at `i` and one found at `n`. */
  function LoadBetween(t: string, skip: nat, i: int, n: int): string {
    if i >= 0 && n >= 0 then Strip(Slice(t, i + skip, n)) else ""
  }

  function LoadSection(t: string, m: Markers): string {
    LoadBetween(t, |m.start|, StartAt(t, m), EndAt(t, m))
  }

  // ---- what a caller can check before an edit ----

  /** A name that cannot fake the start of a marker. */
  predicate ValidName(name: string) {
    '<' !in name && '\n' !in name
  }

  /** The first start marker precedes the first end marker. */
  predicate Ordered(t: string, m: Markers) {
    Marked(t, m) && StartAt(t, m) < EndAt(t, m)
  }

  predicate Unmarked(t: string, m: Markers) {
    !Has(t, m.start) && !Has(t, m.end)
  }

  predicate PairOk(t: string, m: Markers) {
    Ordered(t, m) || Unmarked(t, m)
  }

  // ---- markers and where they can occur ----

  predicate MarkerLike(m: string) {
    && |m| > 5 && m[0] == '<' && m[|m| - 1] == '>'
    && forall k | 0 < k < |m| :: m[k] != '<' && m[k] != '\n'
  }

  predicate Proper(m: Markers) {
    MarkerLike(m.start) && MarkerLike(m.end) && m.start[5] == 's' && m.end[5] == 'e'
  }

  lemma ValidNamesAreProper(name: string)
    requires ValidName(name)
    ensures Proper(MarkersOf(name))
  {
    var m := MarkersOf(name);
    forall k | 0 < k < |m.start| ensures m.start[k] != '<' && m.start[k] != '\n' {
      if |OPEN| <= k < |OPEN| + |name| { assert m.start[k] == name[k - |OPEN|]; }
    }
    forall k | 0 < k < |m.end| ensures m.end[k] != '<' && m.end[k] != '\n' {
      if |END_OPEN| <= k < |END_OPEN| + |name| { assert m.end[k] == name[k - |END_OPEN|]; }
    }
  }

  /** A marker never straddles a place where a marker or a line starts. */
  lemma NoStraddle(x: string, y: string, w: string, i: int)
    requires MarkerLike(w) && OccursAt(x + y, w, i)
    requires |y| > 0 && (y[0] == '<' || y[0] == '\n')
    ensures OccursAt(x, w, i) || OccursAt(y, w, i - |x|)
  {
    OccursInParts(x, y, w, i);
    if i < |x| < i + |w| {
      CharOf(x + y, w, i, |x| - i);
      assert false;
    }
  }

  /** Inside a marker another one can only start where it starts. */
  lemma InsideMarker(w: string, v: string, i: int)
    requires MarkerLike(v) && MarkerLike(w) && OccursAt(v, w, i)
    ensures i == 0
  {
    CharOf(v, w, i, 0);
  }

  /** Two different kinds of markers do not overlap. */
  lemma NoOverlap(t: string, m: Markers, i: int, j: int)
    requires Proper(m) && OccursAt(t, m.start, i) && OccursAt(t, m.end, j)
    ensures i + |m.start| <= j || j + |m.end| <= i
  {
    CharOf(t, m.start, i, 0);
    CharOf(t, m.end, j, 0);
    if i < j < i + |m.start| {
      CharOf(t, m.start, i, j - i);
      assert false;
    } else if j < i < j + |m.end| {
      CharOf(t, m.end, j, i - j);
      assert false;
    } else if i == j {
      CharOf(t, m.start, i, 5);
      CharOf(t, m.end, j, 5);
      assert false;
    }
  }

  /** A marker in `"\n" + c + "\n" + z` lies in `c` or in `z`. */
  lemma OccursInLines(c: string, z: string, w: string, i: int)
    requires MarkerLike(w) && OccursAt("\n" + c + "\n" + z, w, i)
    ensures OccursAt(c, w, i - 1) || OccursAt(z, w, i - |c| - 2)
  {
    var y := "\n" + z;
    assert "\n" + c + "\n" + z == "\n" + (c + y);
    CharOf("\n" + (c + y), w, i, 0);
    OccursInParts("\n", c + y, w, i);
    NoStraddle(c, y, w, i - 1);
    if !OccursAt(c, w, i - 1) {
      CharOf(y, w, i - 1 - |c|, 0);
      OccursInParts("\n", z, w, i - 1 - |c|);
    }
  }

  /** A marker in `p + block + q` that is not in `p` nor in the content lies at
      the block's start marker or from its end marker on. */
  lemma OccursAroundBlock(p: string, m: Markers, c: string, q: string, w: string, i: int)
    requires MarkerLike(w) && Proper(m)
    requires OccursAt(p + (Block(m, c) + q), w, i)
    ensures OccursAt(p, w, i)
         || (i == |p| && OccursAt(m.start, w, 0))
         || OccursAt(c, w, i - |p| - |m.start| - 1)
         || OccursAt(m.end + q, w, i - |p| - |m.start| - |c| - 2)
  {
    hide OccursAt;
    var lines := "\n" + c + "\n" + (m.end + q);
    assert Block(m, c) + q == m.start + lines;
    NoStraddle(p, m.start + lines, w, i);
    if !OccursAt(p, w, i) {
      NoStraddle(m.start, lines, w, i - |p|);
      if OccursAt(m.start, w, i - |p|) {
        InsideMarker(w, m.start, i - |p|);
      } else {
        OccursInLines(c, m.end + q, w, i - |p| - |m.start|);
      }
    }
  }

  lemma KindsDiffer(m: Markers)
    requires Proper(m)
    ensures !OccursAt(m.start, m.end, 0) && !OccursAt(m.end, m.start, 0)
  {
    if OccursAt(m.start, m.end, 0) {
      CharOf(m.start, m.end, 0, 5);
      assert false;
    }
    if OccursAt(m.end, m.start, 0) {
      CharOf(m.end, m.start, 0, 5);
      assert false;
    }
  }

  // ---- the section edit is a faithful store ----

  /** The text in front of the block after a replace: what preceded the old
      block, or the whole old text and a line break when the block is appended. */
  function Prefix(t: string, m: Markers): string {
    if Marked(t, m) then Before(t, m) else t + "\n"
  }

  function Suffix(t: string, m: Markers): string {
    if Marked(t, m) then After(t, m) else ""
  }

  lemma ReplaceShape(t: string, m: Markers, c: string)
    ensures ReplaceSection(t, m, c) == Prefix(t, m) + (Block(m, c) + Suffix(t, m))
  {
    if Marked(t, m) {
      assert Before(t, m) + Block(m, c) + After(t, m) == Before(t, m) + (Block(m, c) + After(t, m));
    } else {
      assert t + ("\n" + Block(m, c)) == t + "\n" + (Block(m, c) + "");
    }
  }

  /** The start marker never occurs in front of the block, and the end marker
      occurs there exactly when a broken pair left one behind. */
  lemma PrefixMarkers(t: string, m: Markers)
    requires Proper(m)
    ensures forall i :: !OccursAt(Prefix(t, m), m.start, i) || (Has(t, m.start) && !Marked(t, m))
    ensures PairOk(t, m) ==> forall i :: !OccursAt(Prefix(t, m), m.end, i)
    ensures Has(t, m.end) && !PairOk(t, m) ==> OccursAt(Prefix(t, m), m.end, EndAt(t, m))
  {
    var p := Prefix(t, m);
    if Marked(t, m) {
      assert t == p + t[|p|..];
      forall i ensures !OccursAt(p, m.start, i) { OccursInParts(p, t[|p|..], m.start, i); }
      NoOverlap(t, m, StartAt(t, m), EndAt(t, m));
      forall i { OccursInParts(p, t[|p|..], m.end, i); }
    } else {
      forall w, i | (w == m.start || w == m.end) && OccursAt(p, w, i) ensures OccursAt(t, w, i) {
        NoStraddle(t, "\n", w, i);
      }
      OccursInParts(t, "\n", m.end, EndAt(t, m));
    }
  }

  /** After a replace the first markers of the section are those of the new block. */
  lemma ReplacedMarkers(t: string, m: Markers, c: string)
    requires Proper(m) && PairOk(t, m) && !Has(c, m.end)
    ensures var r := ReplaceSection(t, m, c);
      && StartAt(r, m) == |Prefix(t, m)|
      && EndAt(r, m) == |Prefix(t, m)| + |m.start| + |c| + 2
  {
    hide ReplaceSection, Find, Prefix, Suffix, Block, OccursAt, MarkerLike, Has, PairOk, Marked;
    ReplaceShape(t, m, c);
    var p, q := Prefix(t, m), Suffix(t, m);
    var r := ReplaceSection(t, m, c);
    BlockMarkers(p, m, c, q);
    var n := |p| + |m.start| + |c| + 2;
    forall j | 0 <= j < |p| ensures !OccursAt(r, m.start, j) { NoStartBefore(t, m, c, j); }
    FindIs(r, m.start, |p|);
    forall j | 0 <= j < n ensures !OccursAt(r, m.end, j) { NoEndBefore(t, m, c, j); }
    FindIs(r, m.end, n);
  }

  lemma NoStartBefore(t: string, m: Markers, c: string, j: nat)
    requires Proper(m) && PairOk(t, m) && j < |Prefix(t, m)|
    ensures !OccursAt(Prefix(t, m) + (Block(m, c) + Suffix(t, m)), m.start, j)
  {
    PrefixMarkers(t, m);
    hide Prefix, Suffix;
    var p, tail := Prefix(t, m), Block(m, c) + Suffix(t, m);
    if OccursAt(p + tail, m.start, j) { NoStraddle(p, tail, m.start, j); }
  }

  lemma NoEndBefore(t: string, m: Markers, c: string, j: nat)
    requires Proper(m) && PairOk(t, m) && !Has(c, m.end) && j < |Prefix(t, m)| + |m.start| + |c| + 2
    ensures !OccursAt(Prefix(t, m) + (Block(m, c) + Suffix(t, m)), m.end, j)
  {
    PrefixMarkers(t, m);
    KindsDiffer(m);
    hide Prefix, Suffix, Block, MarkerLike;
    var p, q := Prefix(t, m), Suffix(t, m);
    if OccursAt(p + (Block(m, c) + q), m.end, j) { OccursAroundBlock(p, m, c, q, m.end, j); }
  }

  lemma BlockMarkers(p: string, m: Markers, c: string, q: string)
    ensures var r := p + (Block(m, c) + q); var n := |p| + |m.start| + |c| + 2;
      && OccursAt(r, m.start, |p|) && OccursAt(r, m.end, n)
      && r[|p| + |m.start|..n] == "\n" + c + "\n"
      && r[..|p|] == p && r[n + |m.end|..] == q
  {
    var r := p + (Block(m, c) + q);
    var lines := "\n" + c + "\n";
    assert r == p + m.start + lines + m.end + q;
    var n := |p| + |m.start| + |c| + 2;
    assert r[|p|..|p| + |m.start|] == m.start;
    assert r[n..n + |m.end|] == m.end;
  }

  lemma BetweenIs(r: string, skip: nat, i: nat, n: nat, x: string)
    requires i + skip <= n <= |r| && r[i + skip..n] == x
    ensures LoadBetween(r, skip, i, n) == Strip(x)
  {
  }

  /** What is stored is what is loaded, up to the surrounding whitespace the
      loader strips. */
  lemma LoadAfterReplace(t: string, m: Markers, c: string)
    requires Proper(m) && PairOk(t, m) && !Has(c, m.end)
    ensures LoadSection(ReplaceSection(t, m, c), m) == Strip(c)
  {
    hide ReplaceSection, Find, Prefix, Suffix, Block, LoadBetween, Strip, Has, PairOk, Proper;
    ReplacedMarkers(t, m, c);
    ReplaceShape(t, m, c);
    LoadBlock(Prefix(t, m), m, c, Suffix(t, m));
  }

  lemma LoadBlock(p: string, m: Markers, c: string, q: string)
    ensures LoadBetween(p + (Block(m, c) + q), |m.start|, |p|, |p| + |m.start| + |c| + 2) == Strip(c)
  {
    BlockMarkers(p, m, c, q);
    BetweenIs(p + (Block(m, c) + q), |m.start|, |p|, |p| + |m.start| + |c| + 2, "\n" + c + "\n");
    StripPadded("\n", c, "\n");
  }

  /** What a load returns never contains the section's end marker. */
  lemma LoadHasNoEnd(t: string, m: Markers)
    requires Proper(m)
    ensures !Has(LoadSection(t, m), m.end)
  {
    hide Find;
    if Marked(t, m) {
      forall i ensures !OccursAt(LoadSection(t, m), m.end, i) {
        SliceHasNoEnd(t, StartAt(t, m) + |m.start|, EndAt(t, m), m.end, i);
      }
    }
  }

  lemma SliceHasNoEnd(t: string, lo: nat, hi: nat, e: string, i: int)
    requires |e| > 0 && hi <= |t| && forall k | 0 <= k < hi :: !OccursAt(t, e, k)
    ensures !OccursAt(Strip(Slice(t, lo, hi)), e, i)
  {
    var x := Slice(t, lo, hi);
    var l, h := StripBounds(x);
    if lo < hi && OccursAt(Strip(x), e, i) {
      assert x == t[lo..hi];
      forall k | 0 <= k < |e| ensures t[lo + l + i + k] == e[k] { CharOf(Strip(x), e, i, k); }
      OccursByChars(t, e, lo + l + i);
    }
  }

  lemma EndMarkerSurvivesStrip(x: string, m: Markers)
    requires Proper(m) && Has(x, m.end)
    ensures Has(Strip(x), m.end)
  {
    var i := Find(x, m.end, 0);
    var l, h := StripBounds(x);
    CharOf(x, m.end, i, 0);
    CharOf(x, m.end, i, |m.end| - 1);
    assert x[i] == '<' && x[i + (|m.end| - 1)] == '>';
    assert l <= i by { assert !IsSpace(x[i]); }
    assert i + |m.end| <= h by { assert !IsSpace(x[i + |m.end| - 1]); }
    assert Strip(x)[i - l..i - l + |m.end|] == x[i..i + |m.end|];
    assert OccursAt(Strip(x), m.end, i - l);
  }

  /** With a broken marker pair the stored text does not come back: either the
      stale end marker hides the block, or the stale start marker swallows it. */
  lemma BrokenPairLosesText(t: string, m: Markers, c: string)
    requires Proper(m) && !PairOk(t, m) && !Has(c, m.end) && Strip(c) != ""
    ensures LoadSection(ReplaceSection(t, m, c), m) != Strip(c)
  {
    ReplaceShape(t, m, c);
    PrefixMarkers(t, m);
    var p, q := Prefix(t, m), Suffix(t, m);
    var r := ReplaceSection(t, m, c);
    BlockMarkers(p, m, c, q);
    if Has(t, m.end) {
      OccursInParts(p, Block(m, c) + q, m.end, EndAt(t, m));
      forall i | OccursAt(r, m.start, i) ensures i >= |p| {
        NoStraddle(p, Block(m, c) + q, m.start, i);
      }
      assert Strip("") == "";
    } else {
      StaleStartSwallows(t, m, c);
    }
  }

  lemma StaleStartSwallows(t: string, m: Markers, c: string)
    requires Proper(m) && Has(t, m.start) && !Has(t, m.end) && !Has(c, m.end)
    ensures |LoadSection(ReplaceSection(t, m, c), m)| > |Strip(c)|
  {
    hide Find, LoadBetween;
    StaleStartMarkers(t, m, c);
    ReplaceShape(t, m, c);
    SwallowedLoad(t, m, c, StartAt(t, m));
  }

  lemma SwallowedLoad(t: string, m: Markers, c: string, i: nat)
    requires Proper(m) && i + |m.start| <= |t|
    ensures |LoadBetween(t + "\n" + (Block(m, c) + ""), |m.start|, i, |t| + 1 + |m.start| + |c| + 2)| > |Strip(c)|
  {
    var lines := "\n" + c + "\n";
    var y := t[i + |m.start|..] + "\n";
    SwallowedText(t, m, c, i);
    BetweenIs(t + "\n" + (Block(m, c) + ""), |m.start|, i, |t| + 1 + |m.start| + |c| + 2, y + m.start + lines);
    LongStrip(y, m.start, lines);
    StripPadded("\n", c, "\n");
  }

  lemma SwallowedText(t: string, m: Markers, c: string, i: nat)
    requires i + |m.start| <= |t|
    ensures var r := t + "\n" + (Block(m, c) + ""); var n := |t| + 1 + |m.start| + |c| + 2;
      n <= |r| && r[i + |m.start|..n] == t[i + |m.start|..] + "\n" + m.start + ("\n" + c + "\n")
  {
    var r := t + "\n" + (Block(m, c) + "");
    var u := t + "\n" + m.start + ("\n" + c + "\n");
    assert r == u + m.end;
    assert u[i + |m.start|..] == t[i + |m.start|..] + "\n" + m.start + ("\n" + c + "\n");
  }

  lemma StaleStartMarkers(t: string, m: Markers, c: string)
    requires Proper(m) && Has(t, m.start) && !Has(t, m.end) && !Has(c, m.end)
    ensures var r := ReplaceSection(t, m, c);
      && StartAt(r, m) == StartAt(t, m) && EndAt(r, m) == |t| + 1 + |m.start| + |c| + 2
  {
    hide ReplaceSection, Find, Block, Proper, MarkerLike;
    var r := ReplaceSection(t, m, c);
    ReplaceShape(t, m, c);
    NewEndIsFirst(t, m, c);
    FindIs(r, m.end, |t| + 1 + |m.start| + |c| + 2);
    var rest := "\n" + Block(m, c);
    assert r == t + rest by { assert "\n" + (Block(m, c) + "") == rest; }
    var i := StartAt(t, m);
    OccursInParts(t, rest, m.start, i);
    forall k | 0 <= k < i ensures !OccursAt(r, m.start, k) { OccursInParts(t, rest, m.start, k); }
    FindIs(r, m.start, i);
  }

  lemma NewEndIsFirst(t: string, m: Markers, c: string)
    requires Proper(m) && !Has(t, m.end) && !Has(c, m.end)
    ensures var r := t + "\n" + (Block(m, c) + ""); var n := |t| + 1 + |m.start| + |c| + 2;
      OccursAt(r, m.end, n) && forall k | OccursAt(r, m.end, k) :: k >= n
  {
    hide Block;
    var r, n := t + "\n" + (Block(m, c) + ""), |t| + 1 + |m.start| + |c| + 2;
    BlockMarkers(t + "\n", m, c, "");
    KindsDiffer(m);
    forall k | OccursAt(r, m.end, k) ensures k >= n {
      OccursAroundBlock(t + "\n", m, c, "", m.end, k);
      if OccursAt(t + "\n", m.end, k) { NoStraddle(t, "\n", m.end, k); }
    }
  }

  /** Text holding an unstrippable core and then `z` strips to more than `z` does. */
  lemma LongStrip(y: string, s: string, z: string)
    requires |s| > 0 && !IsSpace(s[0]) && !IsSpace(s[|s| - 1])
    ensures |Strip(y + s + z)| > |Strip(z)|
  {
    var x := y + s + z;
    var l, h := StripBounds(x);
    var lz, hz := StripBounds(z);
    assert x[|y|] == s[0] && x[|y| + |s| - 1] == s[|s| - 1];
    if lz < hz {
      assert x[|y| + |s| + hz - 1] == z[hz - 1];
    }
  }

  /** Exactly when a section edit is faithful: for any text that is more than
      whitespace, the round trip holds iff the section's markers are well
      ordered or both absent, and the text does not itself close the section. */
  lemma RoundTripIff(t: string, name: string, c: string)
    requires ValidName(name) && Strip(c) != ""
    ensures var m := MarkersOf(name);
      LoadSection(ReplaceSection(t, m, c), m) == Strip(c) <==> PairOk(t, m) && !Has(c, m.end)
  {
    ValidNamesAreProper(name);
    var m := MarkersOf(name);
    if Has(c, m.end) {
      EndMarkerSurvivesStrip(c, m);
      LoadHasNoEnd(ReplaceSection(t, m, c), m);
    } else if PairOk(t, m) {
      LoadAfterReplace(t, m, c);
    } else {
      BrokenPairLosesText(t, m, c);
    }
  }

  /** After a faithful replace the text around the block is preserved character
      for character, so a later edit of the same section forgets only the block. */
  lemma ReplaceAgain(t: string, name: string, c: string, d: string)
    requires ValidName(name) && PairOk(t, MarkersOf(name)) && !Has(c, MarkersOf(name).end)
    ensures var m := MarkersOf(name); var r := ReplaceSection(t, m, c);
      && Ordered(r, m)
      && Before(r, m) == Prefix(t, m) && After(r, m) == Suffix(t, m)
      && ReplaceSection(r, m, d) == ReplaceSection(t, m, d)
      && DeleteSection(r, m) == Prefix(t, m) + Suffix(t, m)
  {
    ValidNamesAreProper(name);
    var m := MarkersOf(name);
    ReplacedMarkers(t, m, c);
    ReplaceShape(t, m, c);
    BlockMarkers(Prefix(t, m), m, c, Suffix(t, m));
    ReplaceShape(t, m, d);
    ReplaceShape(ReplaceSection(t, m, c), m, d);
  }

  // ---- editing one section leaves the others alone ----

  /** `whole` is `p`, then a gap, then `q`, and the marker `w` occurs only in
      `p` and in `q`. */
  ghost predicate Splits(whole: string, p: string, gap: nat, q: string, w: string) {
    && |whole| == |p| + gap + |q| && whole[..|p|] == p && whole[|p| + gap..] == q
    && forall i :: OccursAt(whole, w, i) <==> OccursAt(p, w, i) || OccursAt(q, w, i - |p| - gap)
  }

  lemma FindSplit(whole: string, p: string, gap: nat, q: string, w: string)
    requires Splits(whole, p, gap, q, w)
    ensures Find(whole, w, 0) == FirstOnSides(|p| + gap, Find(p, w, 0), Find(q, w, 0))
  {
    if Has(p, w) {
      FindIs(whole, w, Find(p, w, 0));
    } else if Has(q, w) {
      FindIs(whole, w, |p| + gap + Find(q, w, 0));
    }
  }

  /** The section neither opens in `p` to close in `q`. */
  predicate NotAround(p: string, q: string, m: Markers) {
    !(Has(p, m.start) && !Has(p, m.end) && Has(q, m.end))
  }

  /** What a section loads as depends only on the two sides of the gap. */
  function LoadSides(p: string, q: string, m: Markers): string {
    if Has(p, m.start) && Has(p, m.end) then LoadSection(p, m)
    else if !Has(p, m.start) && !Has(p, m.end) then LoadSection(q, m)
    else ""
  }

  lemma LoadSplit(whole: string, p: string, gap: nat, q: string, m: Markers)
    requires Splits(whole, p, gap, q, m.start) && Splits(whole, p, gap, q, m.end)
    requires NotAround(p, q, m)
    ensures LoadSection(whole, m) == LoadSides(p, q, m)
  {
    FindSplit(whole, p, gap, q, m.start);
    FindSplit(whole, p, gap, q, m.end);
    LoadFromSides(whole, p, gap, q, m);
  }

  /** Where a marker is first found, given where it is found on each side. */
  function FirstOnSides(d: nat, fp: int, fq: int): int {
    if fp >= 0 then fp else if fq >= 0 then d + fq else -1
  }

  lemma LoadFromSides(whole: string, p: string, gap: nat, q: string, m: Markers)
    requires |whole| == |p| + gap + |q| && whole[..|p|] == p && whole[|p| + gap..] == q
    requires StartAt(whole, m) == FirstOnSides(|p| + gap, StartAt(p, m), StartAt(q, m))
    requires EndAt(whole, m) == FirstOnSides(|p| + gap, EndAt(p, m), EndAt(q, m))
    requires NotAround(p, q, m)
    ensures LoadSection(whole, m) == LoadSides(p, q, m)
  {
    LoadFromFinds(whole, p, gap, q, |m.start|, StartAt(p, m), EndAt(p, m), StartAt(q, m), EndAt(q, m));
  }

  lemma LoadFromFinds(whole: string, p: string, gap: nat, q: string, skip: nat, sp: int, ep: int, sq: int, eq: int)
    requires |whole| == |p| + gap + |q| && whole[..|p|] == p && whole[|p| + gap..] == q
    requires sp <= |p| && ep <= |p| && sq <= |q| && eq <= |q|
    requires !(sp >= 0 && ep < 0 && eq >= 0)
    ensures var d := |p| + gap;
      LoadBetween(whole, skip, FirstOnSides(d, sp, sq), FirstOnSides(d, ep, eq))
      == if sp >= 0 && ep >= 0 then LoadBetween(p, skip, sp, ep)
         else if sp < 0 && ep < 0 then LoadBetween(q, skip, sq, eq)
         else ""
  {
    hide Strip, Slice;
    if sp >= 0 && ep >= 0 {
      SliceLeft(whole, p, sp + skip, ep);
    } else if sp >= 0 {
      assert FirstOnSides(|p| + gap, ep, eq) == -1;
    } else if sp < 0 && ep < 0 && sq >= 0 && eq >= 0 {
      SliceRight(whole, |p| + gap, q, sq + skip, eq);
    } else if sp < 0 && ep >= 0 && sq >= 0 {
      CrossedSlice(whole, |p| + gap + sq + skip, ep);
    }
  }

  lemma CrossedSlice(s: string, lo: nat, hi: nat)
    requires hi <= lo
    ensures Strip(Slice(s, lo, hi)) == ""
  {
    assert Slice(s, lo, hi) == "";
  }

  lemma SliceLeft(whole: string, p: string, lo: nat, hi: nat)
    requires |p| <= |whole| && whole[..|p|] == p && hi <= |p|
    ensures Slice(whole, lo, hi) == Slice(p, lo, hi)
  {
    assert forall k | 0 <= k < |p| :: whole[k] == whole[..|p|][k];
  }

  lemma SliceRight(whole: string, d: nat, q: string, lo: nat, hi: nat)
    requires d <= |whole| && whole[d..] == q && hi <= |q|
    ensures Slice(whole, d + lo, d + hi) == Slice(q, lo, hi)
  {
    assert forall k | 0 <= k < |q| :: q[k] == whole[d..][k] == whole[d + k];
    if lo <= hi { assert whole[d + lo..d + hi] == q[lo..hi]; }
  }

  /** `w` is no marker of the section `m`, whatever follows them. */
  ghost predicate Foreign(m: Markers, w: string) {
    && MarkerLike(w)
    && forall z :: !OccursAt(m.start + z, w, 0) && !OccursAt(m.end + z, w, 0)
  }

  /** A name without " -->" ends at the first " -->" that follows it. */
  lemma NameEnds(name: string, z: string)
    requires !Has(name, CLOSE)
    ensures Find(name + CLOSE + z, CLOSE, 0) == |name|
  {
    var s := name + CLOSE + z;
    assert s == name + (CLOSE + z);
    assert s[|name|..|name| + |CLOSE|] == CLOSE;
    forall i | OccursAt(s, CLOSE, i) ensures i >= |name| {
      OccursInParts(name, CLOSE + z, CLOSE, i);
      if i < |name| {
        CharOf(s, CLOSE, i, |name| - i);
        assert false;
      }
    }
    FindIs(s, CLOSE, |name|);
  }

  lemma SameKindForeign(pre: string, a: string, b: string, z: string)
    requires !Has(a, CLOSE) && !Has(b, CLOSE)
    ensures OccursAt(pre + a + CLOSE + z, pre + b + CLOSE, 0) ==> a == b
  {
    var s := a + CLOSE + z;
    assert pre + a + CLOSE + z == pre + s && pre + b + CLOSE == pre + (b + CLOSE);
    if OccursAt(pre + s, pre + (b + CLOSE), 0) {
      var y := s[|b| + |CLOSE|..];
      assert s == b + CLOSE + y by {
        assert s[..|b| + |CLOSE|] == (pre + s)[..|pre + (b + CLOSE)|][|pre|..] == b + CLOSE;
      }
      NameEnds(a, z);
      NameEnds(b, y);
      assert a == s[..|a|] && b == s[..|b|];
    }
  }

  lemma OtherKindForeign(v: string, w: string, z: string)
    requires |v| > 5 && |w| > 5 && v[5] != w[5]
    ensures !OccursAt(v + z, w, 0)
  {
    if OccursAt(v + z, w, 0) { CharOf(v + z, w, 0, 5); }
  }

  /** Markers of two names that do not close early are foreign to each other. */
  lemma OtherNamesAreForeign(a: string, b: string)
    requires ValidName(a) && ValidName(b) && a != b && !Has(a, CLOSE) && !Has(b, CLOSE)
    ensures Foreign(MarkersOf(a), MarkersOf(b).start) && Foreign(MarkersOf(a), MarkersOf(b).end)
  {
    ValidNamesAreProper(a);
    ValidNamesAreProper(b);
    var m, o := MarkersOf(a), MarkersOf(b);
    forall z ensures !OccursAt(m.start + z, o.start, 0) && !OccursAt(m.end + z, o.start, 0) {
      SameKindForeign(OPEN, a, b, z);
      OtherKindForeign(m.end, o.start, z);
    }
    forall z ensures !OccursAt(m.start + z, o.end, 0) && !OccursAt(m.end + z, o.end, 0) {
      SameKindForeign(END_OPEN, a, b, z);
      OtherKindForeign(m.start, o.end, z);
    }
  }

  /** Around a whole block of another section, a foreign marker occurs only in
      the text on either side of it. */
  lemma BlockSplits(p: string, m: Markers, x: string, q: string, w: string)
    requires Proper(m) && Foreign(m, w) && !Has(x, w)
    ensures Splits(p + (m.start + x + m.end + q), p, |m.start| + |x| + |m.end|, q, w)
  {
    hide Find;
    var blk := m.start + x + m.end;
    var whole := p + (m.start + x + m.end + q);
    assert whole == p + (blk + q) == (p + blk) + q;
    forall i ensures OccursAt(whole, w, i) <==> OccursAt(p, w, i) || OccursAt(q, w, i - |p| - |blk|) {
      OccursInParts(p, blk + q, w, i);
      OccursInParts(p + blk, q, w, i);
      if OccursAt(whole, w, i) {
        NoStraddle(p, blk + q, w, i);
        if !OccursAt(p, w, i) {
          InBlockTail(m, x, q, w, i - |p|);
        }
      }
    }
  }

  lemma InBlockTail(m: Markers, x: string, q: string, w: string, j: int)
    requires Proper(m) && Foreign(m, w) && !Has(x, w) && OccursAt(m.start + x + m.end + q, w, j)
    ensures OccursAt(q, w, j - |m.start| - |x| - |m.end|)
  {
    hide Find, OccursAt;
    var tail := m.end + q;
    assert m.start + x + m.end + q == m.start + (x + tail);
    PastMarker(m.start, x + tail, w, j);
    NoStraddle(x, tail, w, j - |m.start|);
    PastMarker(m.end, q, w, j - |m.start| - |x|);
  }

  /** A marker that `v` does not begin can only occur after the marker `v`. */
  lemma PastMarker(v: string, z: string, w: string, j: int)
    requires MarkerLike(v) && MarkerLike(w) && !OccursAt(v + z, w, 0) && OccursAt(v + z, w, j)
    ensures OccursAt(z, w, j - |v|)
  {
    CharOf(v + z, w, j, 0);
    OccursInParts(v, z, w, j);
  }

  /** Frame: after a faithful edit of section `a`, every section `b` that neither
      encloses it nor is nested in it, and that the new text does not mention,
      loads exactly as before. */
  lemma OtherSectionsKept(t: string, a: string, c: string, b: string)
    requires ValidName(a) && ValidName(b) && a != b && !Has(a, CLOSE) && !Has(b, CLOSE)
    requires PairOk(t, MarkersOf(a))
    requires !Has(c, MarkersOf(b).start) && !Has(c, MarkersOf(b).end)
    requires NotAround(Prefix(t, MarkersOf(a)), Suffix(t, MarkersOf(a)), MarkersOf(b))
    requires Marked(t, MarkersOf(a)) ==>
      && !Has(Inside(t, MarkersOf(a)), MarkersOf(b).start) && !Has(Inside(t, MarkersOf(a)), MarkersOf(b).end)
    ensures LoadSection(ReplaceSection(t, MarkersOf(a), c), MarkersOf(b)) == LoadSection(t, MarkersOf(b))
  {
    ValidNamesAreProper(a);
    OtherNamesAreForeign(a, b);
    NewSides(t, MarkersOf(a), c, MarkersOf(b));
    OldSides(t, MarkersOf(a), MarkersOf(b));
  }

  lemma BlockLoad(p: string, m: Markers, x: string, q: string, o: Markers)
    requires Proper(m) && Foreign(m, o.start) && Foreign(m, o.end)
    requires !Has(x, o.start) && !Has(x, o.end) && NotAround(p, q, o)
    ensures LoadSection(p + (m.start + x + m.end + q), o) == LoadSides(p, q, o)
  {
    hide Find, Splits, Foreign, Proper, LoadSection, LoadSides;
    BlockSplits(p, m, x, q, o.start);
    BlockSplits(p, m, x, q, o.end);
    LoadSplit(p + (m.start + x + m.end + q), p, |m.start| + |x| + |m.end|, q, o);
  }

  lemma NewSides(t: string, m: Markers, c: string, o: Markers)
    requires Proper(m) && Foreign(m, o.start) && Foreign(m, o.end)
    requires !Has(c, o.start) && !Has(c, o.end) && NotAround(Prefix(t, m), Suffix(t, m), o)
    ensures LoadSection(ReplaceSection(t, m, c), o) == LoadSides(Prefix(t, m), Suffix(t, m), o)
  {
    LinesLack(c, o.start);
    LinesLack(c, o.end);
    BlockLoad(Prefix(t, m), m, "\n" + c + "\n", Suffix(t, m), o);
    ReplaceShape(t, m, c);
    BlockLines(m, c, Suffix(t, m));
  }

  lemma BlockLines(m: Markers, c: string, q: string)
    ensures Block(m, c) + q == m.start + ("\n" + c + "\n") + m.end + q
  {
  }

  lemma OldSides(t: string, m: Markers, o: Markers)
    requires Proper(m) && PairOk(t, m) && Foreign(m, o.start) && Foreign(m, o.end)
    requires NotAround(Prefix(t, m), Suffix(t, m), o)
    requires Marked(t, m) ==> !Has(Inside(t, m), o.start) && !Has(Inside(t, m), o.end)
    ensures LoadSection(t, o) == LoadSides(Prefix(t, m), Suffix(t, m), o)
  {
    if Marked(t, m) {
      BlockLoad(Before(t, m), m, Inside(t, m), After(t, m), o);
      OldShape(t, m);
    } else {
      LineEndLoad(t, o);
    }
  }

  /** A line break at the end changes no section. */
  lemma LineEndLoad(t: string, o: Markers)
    requires MarkerLike(o.start) && MarkerLike(o.end)
    ensures LoadSection(t, o) == LoadSection(t + "\n", o) == LoadSides(t + "\n", "", o)
  {
    LineEndSplits(t, o.start);
    LineEndSplits(t, o.end);
    LoadSplit(t + "\n", t, 1, "", o);
    assert Strip("") == "";
  }

  lemma OldShape(t: string, m: Markers)
    requires Proper(m) && Ordered(t, m)
    ensures t == Before(t, m) + (m.start + Inside(t, m) + m.end + After(t, m))
  {
    hide Find, OccursAt, Proper, Slice;
    CutTwice(t, m, StartAt(t, m), EndAt(t, m));
  }

  lemma CutTwice(t: string, m: Markers, i: nat, j: nat)
    requires Proper(m) && OccursAt(t, m.start, i) && OccursAt(t, m.end, j) && i < j
    ensures t == t[..i] + (m.start + Slice(t, i + |m.start|, j) + m.end + t[j + |m.end|..])
  {
    NoOverlap(t, m, i, j);
    hide Proper, MarkerLike;
    var a, b := i + |m.start|, j + |m.end|;
    FiveParts(t, i, a, j, b);
    assert t[i..a] == m.start && t[j..b] == m.end && Slice(t, a, j) == t[a..j];
  }

  lemma FiveParts(t: string, a: nat, b: nat, c: nat, d: nat)
    requires a <= b <= c <= d <= |t|
    ensures t == t[..a] + (t[a..b] + t[b..c] + t[c..d] + t[d..])
  {
  }

  lemma LinesLack(c: string, w: string)
    requires MarkerLike(w) && !Has(c, w)
    ensures !Has("\n" + c + "\n", w)
  {
    forall i ensures !OccursAt("\n" + c + "\n", w, i) {
      if OccursAt("\n" + c + "\n", w, i) {
        assert "\n" + c + "\n" == "\n" + c + "\n" + "";
        OccursInLines(c, "", w, i);
      }
    }
  }

  lemma LineEndSplits(t: string, w: string)
    requires MarkerLike(w)
    ensures Splits(t + "\n", t, 1, "", w)
  {
    forall i ensures OccursAt(t + "\n", w, i) <==> OccursAt(t, w, i) || OccursAt("", w, i - |t| - 1) {
      OccursInParts(t, "\n", w, i);
      if OccursAt(t + "\n", w, i) { NoStraddle(t, "\n", w, i); }
    }
  }

  /** The marker w does not lie across the place where p and q meet. */
  ghost predicate NotAcross(p: string, q: string, w: string) {
    forall i | |p| - |w| < i < |p| :: !OccursAt(p + q, w, i)
  }

  /** Deleting section `a` keeps every other section too, provided the two halves do not
      join into one of its markers. */
  lemma DeleteKeepsOthers(t: string, a: string, b: string)
    requires ValidName(a) && ValidName(b) && a != b && !Has(a, CLOSE) && !Has(b, CLOSE)
    requires Ordered(t, MarkersOf(a))
    requires var p, q, o := Before(t, MarkersOf(a)), After(t, MarkersOf(a)), MarkersOf(b);
      NotAcross(p, q, o.start) && NotAcross(p, q, o.end) && NotAround(p, q, o)
    requires !Has(Inside(t, MarkersOf(a)), MarkersOf(b).start) && !Has(Inside(t, MarkersOf(a)), MarkersOf(b).end)
    ensures LoadSection(DeleteSection(t, MarkersOf(a)), MarkersOf(b)) == LoadSection(t, MarkersOf(b))
  {
    ValidNamesAreProper(a);
    OtherNamesAreForeign(a, b);
    var m, o := MarkersOf(a), MarkersOf(b);
    var p, q := Before(t, m), After(t, m);
    JoinSplits(p, q, o.start);
    JoinSplits(p, q, o.end);
    LoadSplit(p + q, p, 0, q, o);
    OldSides(t, m, o);
  }

  lemma JoinSplits(p: string, q: string, w: string)
    requires NotAcross(p, q, w) && |w| > 0
    ensures Splits(p + q, p, 0, q, w)
  {
    forall i ensures OccursAt(p + q, w, i) <==> OccursAt(p, w, i) || OccursAt(q, w, i - |p| - 0) {
      OccursInParts(p, q, w, i);
    }
  }

  /** Text after the block that starts a line, or another marker, never joins. */
  lemma FreshLineJoinsNothing(p: string, q: string, w: string)
    requires MarkerLike(w) && (q == "" || q[0] == '\n' || q[0] == '<')
    ensures NotAcross(p, q, w)
  {
    if q == "" {
      assert p + q == p;
    } else {
      forall i | |p| - |w| < i < |p| && OccursAt(p + q, w, i) ensures false {
        NoStraddle(p, q, w, i);
      }
    }
  }

  lemma NotAt(s: string, w: string, i: nat, k: nat)
    requires k < |w| && (i + k < |s| ==> s[i + k] != w[k])
    ensures !OccursAt(s, w, i)
  {
    if OccursAt(s, w, i) { CharOf(s, w, i, k); }
  }

  /** Otherwise deleting can bring a section into being: here an empty block of section
      `a` lies inside the start marker of section `b`. */
  lemma DeletingCanJoin(a: string, b: string, x: string)
    requires ValidName(a) && ValidName(b) && a != b && !Has(a, CLOSE) && !Has(b, CLOSE)
    requires '<' !in x && Strip(x) != ""
    ensures var m, o := MarkersOf(a), MarkersOf(b);
      var t := "<" + (m.start + "" + m.end + (o.start[1..] + x + o.end));
      && Ordered(t, m) && LoadSection(t, o) == ""
      && LoadSection(DeleteSection(t, m), o) == Strip(x)
  {
    var m, o := MarkersOf(a), MarkersOf(b);
    var q := o.start[1..] + x + o.end;
    var t := "<" + (m.start + "" + m.end + q);
    hide Find, LoadSection, Strip, MarkersOf, Proper, DeleteSection, Ordered, Has;
    ValidNamesAreProper(a);
    ValidNamesAreProper(b);
    SplitMarkerHides(a, b, x, q);
    DeletesEmptyBlock(m, q);
    HalvesJoin(o, x);
    LoadWhole(o, x);
  }

  lemma HalvesJoin(o: Markers, x: string)
    requires Proper(o)
    ensures "<" + (o.start[1..] + x + o.end) == o.start + x + o.end
  {
    MarkerOpens(o);
    assert o.start == "<" + o.start[1..];
  }

  lemma DeletesEmptyBlock(m: Markers, q: string)
    requires Proper(m)
    ensures var t := "<" + (m.start + "" + m.end + q); Ordered(t, m) && DeleteSection(t, m) == "<" + q
  {
    var t := "<" + (m.start + "" + m.end + q);
    EmptyBlockAt(m, q);
    assert t[..1] == "<" && t[1 + |m.start| + |m.end|..] == q;
  }

  lemma EmptyBlockAt(m: Markers, q: string)
    requires Proper(m)
    ensures var t := "<" + (m.start + "" + m.end + q);
      StartAt(t, m) == 1 && EndAt(t, m) == 1 + |m.start|
  {
    var t := "<" + (m.start + "" + m.end + q);
    var e := 1 + |m.start|;
    assert t[1..e] == m.start && t[e..e + |m.end|] == m.end;
    assert forall k | 0 <= k < |m.start| :: t[1 + k] == m.start[k];
    MarkerOpens(m);
    NotAt(t, m.start, 0, 1);
    NotAt(t, m.end, 0, 1);
    NotAt(t, m.end, 1, 5);
    forall j | 1 < j < e ensures !OccursAt(t, m.end, j) {
      assert t[1 + (j - 1)] == m.start[j - 1];
      NotAt(t, m.end, j, 0);
    }
    FindIs(t, m.start, 1);
    FindIs(t, m.end, e);
  }

  /** A marker has one '<', at its front. */
  lemma MarkerOpens(m: Markers)
    requires Proper(m)
    ensures m.start[0] == '<' && m.end[0] == '<' && m.start[1] != '<' && m.end[1] != '<'
    ensures forall k | 0 < k < |m.start| :: m.start[k] != '<'
  {
  }

  lemma SplitMarkerHides(a: string, b: string, x: string, q: string)
    requires ValidName(a) && ValidName(b) && a != b && !Has(a, CLOSE) && !Has(b, CLOSE) && '<' !in x
    requires q == MarkersOf(b).start[1..] + x + MarkersOf(b).end
    ensures var m, o := MarkersOf(a), MarkersOf(b); LoadSection("<" + (m.start + "" + m.end + q), o) == ""
  {
    var m, o := MarkersOf(a), MarkersOf(b);
    ValidNamesAreProper(a);
    ValidNamesAreProper(b);
    OtherNamesAreForeign(a, b);
    hide MarkersOf, Proper, Find, Foreign;
    BlockSplits("<", m, "", q, o.start);
    NoStartInTail(o, x);
    FindNone("<" + (m.start + "" + m.end + q), o.start);
  }

  lemma NoStartInTail(o: Markers, x: string)
    requires Proper(o) && '<' !in x
    ensures forall i :: !OccursAt(o.start[1..] + x + o.end, o.start, i)
  {
    var q, n := o.start[1..] + x + o.end, |o.start| - 1 + |x|;
    MarkerOpens(o);
    forall i ensures !OccursAt(q, o.start, i) {
      if 0 <= i < |q| {
        if i == n {
          assert q[n + 5] == o.end[5];
          NotAt(q, o.start, i, 5);
        } else {
          assert q[i] == if i < |o.start| - 1 then o.start[1 + i] else if i < n then x[i - (|o.start| - 1)] else o.end[i - n];
          NotAt(q, o.start, i, 0);
        }
      }
    }
  }

  lemma LoadWhole(o: Markers, x: string)
    requires Proper(o) && '<' !in x
    ensures LoadSection(o.start + x + o.end, o) == Strip(x)
  {
    var r, n := o.start + x + o.end, |o.start| + |x|;
    assert r[0..|o.start|] == o.start && r[n..n + |o.end|] == o.end && r[|o.start|..n] == x;
    assert r[0 + 5] == o.start[5];
    NotAt(r, o.end, 0, 5);
    forall j | 0 < j < n ensures !OccursAt(r, o.end, j) {
      assert r[j] == if j < |o.start| then o.start[j] else x[j - |o.start|];
      NotAt(r, o.end, j, 0);
    }
    FindIs(r, o.start, 0);
    FindIs(r, o.end, n);
  }
}
