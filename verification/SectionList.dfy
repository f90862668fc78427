/** The list of section names read off an artifact's text. */
module SectionList {
  import opened Text
  import opened Sections

  /** The names found by scanning for start markers from left to right; the scan
      resumes where the last name ended. */
  function SectionNames(t: string): seq<string>
    decreases |t|
  {
    var i := Find(t, OPEN, 0);
    if i < 0 then [] else
    var k := Find(t, CLOSE, i + |OPEN|);
    if k < 0 then [] else [t[i + |OPEN|..k]] + SectionNames(t[k..])
  }

  /** The scanning loop keeps an index into the text instead of cutting it. */
  method ListSections(content: string) returns (names: seq<string>)
    ensures names == SectionNames(content)
  {
    names := [];
    var idx := 0;
    assert content[0..] == content;
    while true
      invariant 0 <= idx <= |content|
      invariant names + SectionNames(content[idx..]) == SectionNames(content)
      decreases |content| - idx
    {
      FindShift(content, OPEN, idx, idx);
      var at := Find(content, OPEN, idx);
      if at == -1 { break; }
      var nameStart := at + |OPEN|;
      FindShift(content, CLOSE, idx, nameStart);
      var nameEnd := Find(content, CLOSE, nameStart);
      if nameEnd == -1 { break; }
      names := names + [content[nameStart..nameEnd]];
      assert content[idx..][nameStart - idx..nameEnd - idx] == content[nameStart..nameEnd];
      assert content[idx..][nameEnd - idx..] == content[nameEnd..];
      idx := nameEnd;
    }
  }

  /** Searching a text from an index is searching its suffix. */
  lemma FindShift(s: string, pat: string, cut: nat, from: nat)
    requires cut <= from && cut <= |s|
    ensures Find(s, pat, from) ==
      if Find(s[cut..], pat, from - cut) < 0 then -1 else cut + Find(s[cut..], pat, from - cut)
  {
    assert s == s[..cut] + s[cut..];
    forall i | i >= cut ensures OccursAt(s, pat, i) <==> OccursAt(s[cut..], pat, i - cut) {
      OccursInParts(s[..cut], s[cut..], pat, i);
    }
    var r, q := Find(s, pat, from), Find(s[cut..], pat, from - cut);
    assert r >= 0 ==> OccursAt(s[cut..], pat, r - cut);
    assert q >= 0 ==> OccursAt(s, pat, q + cut);
  }

  /** No start marker begins in `x` when `x` has none and ends with '>'. */
  lemma OpenAfter(x: string, u: string, i: int)
    requires |x| > 0 && x[|x| - 1] == '>' && OccursAt(x + u, OPEN, i)
    ensures (OccursAt(x, OPEN, i) && i + |OPEN| + |CLOSE| <= |x| + |CLOSE|) || (i >= |x| && OccursAt(u, OPEN, i - |x|))
  {
    OccursInParts(x, u, OPEN, i);
    if i < |x| < i + |OPEN| {
      CharOf(x + u, OPEN, i, |x| - 1 - i);
      assert false;
    }
  }

  predicate EndsClosed(h: string) {
    |h| >= |CLOSE| && h[|h| - |CLOSE|..] == CLOSE
  }

  /** The scan distributes over text cut right after a closing " -->". */
  lemma {:induction false} NamesDistribute(h: string, v: string)
    requires EndsClosed(h)
    ensures SectionNames(h + v) == SectionNames(h) + SectionNames(v)
    decreases |h|
  {
    hide Find, SectionNames, EndsClosed;
    FirstOpen(h, v);
    var i := Find(h, OPEN, 0);
    if i < 0 {
      NamesAfterNone(h, v);
    } else {
      FirstClose(h, v, i);
      var n := i + |OPEN|;
      var k := Find(h, CLOSE, n);
      CutInFront(h, v, n, k);
      StillClosed(h, k);
      NamesDistribute(h[k..], v);
      FirstName(h, i, k);
      FirstName(h + v, i, k);
      assert [h[n..k]] + (SectionNames(h[k..]) + SectionNames(v)) == [h[n..k]] + SectionNames(h[k..]) + SectionNames(v);
    }
  }

  lemma FirstName(t: string, i: nat, k: nat)
    requires Find(t, OPEN, 0) == i && i + |OPEN| <= k <= |t| && Find(t, CLOSE, i + |OPEN|) == k
    ensures SectionNames(t) == [t[i + |OPEN|..k]] + SectionNames(t[k..])
  {
    hide Find;
  }

  lemma NamesAfterNone(h: string, v: string)
    requires EndsClosed(h) && Find(h, OPEN, 0) < 0
    ensures SectionNames(h + v) == SectionNames(h) + SectionNames(v)
  {
    FirstOpen(h, v);
    var j := Find(v, OPEN, 0);
    hide Find;
    if j >= 0 { SuffixCut(h, v, j); }
  }

  lemma CutInFront(h: string, v: string, n: nat, k: nat)
    requires n <= k <= |h|
    ensures (h + v)[n..k] == h[n..k] && (h + v)[k..] == h[k..] + v
  {
  }

  lemma StillClosed(h: string, k: nat)
    requires EndsClosed(h) && k <= |h| - |CLOSE|
    ensures EndsClosed(h[k..])
  {
    assert h[k..][|h[k..]| - |CLOSE|..] == h[|h| - |CLOSE|..];
  }

  lemma FirstOpen(h: string, v: string)
    requires EndsClosed(h)
    ensures Find(h, OPEN, 0) >= 0 ==> Find(h + v, OPEN, 0) == Find(h, OPEN, 0)
    ensures Find(h, OPEN, 0) < 0 ==>
      Find(h + v, OPEN, 0) == if Find(v, OPEN, 0) < 0 then -1 else |h| + Find(v, OPEN, 0)
  {
    var i, j := Find(h, OPEN, 0), Find(v, OPEN, 0);
    assert h[|h| - 1] == h[|h| - |CLOSE|..][3] == '>';
    forall k | OccursAt(h + v, OPEN, k)
      ensures OccursAt(h, OPEN, k) || (k >= |h| && OccursAt(v, OPEN, k - |h|))
    {
      OpenAfter(h, v, k);
    }
    if i >= 0 {
      OccursInParts(h, v, OPEN, i);
      FindIs(h + v, OPEN, i);
    } else if j >= 0 {
      OccursInParts(h, v, OPEN, |h| + j);
      FindIs(h + v, OPEN, |h| + j);
    } else {
      FindNone(h + v, OPEN);
    }
  }

  /** A marker opened inside `h` is closed inside `h`. */
  lemma FirstClose(h: string, v: string, i: nat)
    requires EndsClosed(h) && OccursAt(h, OPEN, i)
    ensures i + |OPEN| <= Find(h, CLOSE, i + |OPEN|) <= |h| - |CLOSE|
    ensures Find(h + v, CLOSE, i + |OPEN|) == Find(h, CLOSE, i + |OPEN|)
  {
    var n, e := i + |OPEN|, |h| - |CLOSE|;
    assert OccursAt(h, CLOSE, e);
    CharOf(h, OPEN, i, |OPEN| - 1);
    forall d | 0 <= d < |CLOSE| ensures h[e + d] == CLOSE[d] { CharOf(h, CLOSE, e, d); }
    assert h[e] == ' ' && h[e + 1] == '-' && h[e + 2] == '-' && h[e + 3] == '>';
    assert n <= e;
    var k := Find(h, CLOSE, n);
    OccursInParts(h, v, CLOSE, k);
    forall j | n <= j < k ensures !OccursAt(h + v, CLOSE, j) {
      OccursInParts(h, v, CLOSE, j);
    }
  }

  lemma SuffixCut(h: string, v: string, j: nat)
    requires Find(v, OPEN, 0) == j && Find(h + v, OPEN, 0) == |h| + j
    ensures SectionNames(h + v) == SectionNames(v)
  {
    assert (h + v)[|h|..] == v;
    FindShift(h + v, CLOSE, |h|, |h| + j + |OPEN|);
    var k := Find(v, CLOSE, j + |OPEN|);
    if k >= 0 {
      assert (h + v)[|h| + k..] == v[k..];
      assert (h + v)[|h| + j + |OPEN|..|h| + k] == v[j + |OPEN|..k];
    }
  }

  // ---- the scan inverts printing ----

  /** Filler text followed by the start marker of a section. */
  datatype Piece = Piece(filler: string, name: string)

  function PrintPiece(p: Piece): string { p.filler + MarkersOf(p.name).start }

  function Print(doc: seq<Piece>): string {
    if doc == [] then "" else PrintPiece(doc[0]) + Print(doc[1..])
  }

  function Names(doc: seq<Piece>): seq<string> {
    if doc == [] then [] else [doc[0].name] + Names(doc[1..])
  }

  predicate CleanPiece(p: Piece) { !Has(p.filler, OPEN) && !Has(p.name, CLOSE) }

  lemma PieceName(p: Piece)
    requires CleanPiece(p)
    ensures EndsClosed(PrintPiece(p)) && SectionNames(PrintPiece(p)) == [p.name]
  {
    var s, n := PrintPiece(p), |p.filler| + |OPEN|;
    PieceMarker(p.filler, p.name + CLOSE);
    assert s == p.filler + (OPEN + (p.name + CLOSE));
    NameEnds(p.name, "");
    assert s[n..] == p.name + CLOSE == p.name + CLOSE + "";
    FindShift(s, CLOSE, n, n);
    assert s[n..n + |p.name|] == p.name && s[n + |p.name|..] == CLOSE;
    NoOpenInClose();
  }

  lemma PieceMarker(f: string, z: string)
    requires !Has(f, OPEN)
    ensures Find(f + (OPEN + z), OPEN, 0) == |f|
  {
    var s := f + (OPEN + z);
    forall i | OccursAt(s, OPEN, i) ensures i >= |f| {
      OccursInParts(f, OPEN + z, OPEN, i);
      if i < |f| { CharOf(s, OPEN, i, |f| - i); assert false; }
    }
    assert s[|f|..|f| + |OPEN|] == OPEN;
    FindIs(s, OPEN, |f|);
  }

  lemma NoOpenInClose()
    ensures SectionNames(CLOSE) == []
  {
  }

  /** Scanning a printed document gives back exactly its names, in order. */
  lemma {:induction false} ScanInvertsPrint(doc: seq<Piece>, tail: string)
    requires forall p | p in doc :: CleanPiece(p)
    requires !Has(tail, OPEN)
    ensures SectionNames(Print(doc) + tail) == Names(doc)
  {
    if doc == [] {
      assert Print(doc) + tail == tail;
    } else {
      PieceName(doc[0]);
      ScanInvertsPrint(doc[1..], tail);
      NamesDistribute(PrintPiece(doc[0]), Print(doc[1..]) + tail);
      assert Print(doc) + tail == PrintPiece(doc[0]) + (Print(doc[1..]) + tail);
    }
  }

  // ---- the list under section edits ----

  /** A block whose content opens no section adds nothing after its own name. */
  lemma BodyHasNoNames(m: Markers, x: string)
    requires Proper(m) && !Has(x, OPEN)
    ensures SectionNames(x + m.end) == []
  {
    forall i ensures !OccursAt(x + m.end, OPEN, i) {
      if OccursAt(x + m.end, OPEN, i) {
        OccursInParts(x, m.end, OPEN, i);
        if i < |x| {
          CharOf(x + m.end, OPEN, i, |x| - i);
          assert false;
        }
        CharOf(m.end, OPEN, i - |x|, 0);
        CharOf(m.end, OPEN, i - |x|, 5);
        assert false;
      }
    }
    FindNone(x + m.end, OPEN);
  }

  /** The list of a text that holds a block: the names up to and including the
      block's, then those in its content, then those after it. */
  lemma NamesAroundBlock(p: string, name: string, x: string, q: string)
    requires ValidName(name)
    ensures var m := MarkersOf(name);
      SectionNames(p + (m.start + x + m.end + q))
      == SectionNames(p + m.start) + SectionNames(x + m.end) + SectionNames(q)
  {
    hide SectionNames;
    var m := MarkersOf(name);
    MarkersClose(p, x, name);
    hide EndsClosed, MarkersOf;
    assert p + (m.start + x + m.end + q) == (p + m.start) + ((x + m.end) + q);
    NamesDistribute(p + m.start, (x + m.end) + q);
    NamesDistribute(x + m.end, q);
  }

  lemma MarkersClose(p: string, x: string, name: string)
    ensures EndsClosed(p + MarkersOf(name).start) && EndsClosed(x + MarkersOf(name).end)
  {
    assert (p + MarkersOf(name).start)[|p + MarkersOf(name).start| - |CLOSE|..] == CLOSE;
    assert (x + MarkersOf(name).end)[|x + MarkersOf(name).end| - |CLOSE|..] == CLOSE;
  }

  /** Replacing a section that is there keeps the list, as long as neither the old
      nor the new text opens sections of its own. */
  lemma ReplaceKeepsList(t: string, name: string, c: string)
    requires ValidName(name) && Ordered(t, MarkersOf(name))
    requires !Has(Inside(t, MarkersOf(name)), OPEN) && !Has(c, OPEN)
    ensures SectionNames(ReplaceSection(t, MarkersOf(name), c)) == SectionNames(t)
  {
    hide SectionNames;
    var m := MarkersOf(name);
    ValidNamesAreProper(name);
    OldShape(t, m);
    ReplaceShape(t, m, c);
    BlockLines(m, c, After(t, m));
    LinesOpenNothing(c);
    NamesAroundBlock(Before(t, m), name, Inside(t, m), After(t, m));
    NamesAroundBlock(Before(t, m), name, "\n" + c + "\n", After(t, m));
    BodyHasNoNames(m, Inside(t, m));
    BodyHasNoNames(m, "\n" + c + "\n");
  }

  lemma LinesOpenNothing(c: string)
    requires !Has(c, OPEN)
    ensures !Has("\n" + c + "\n", OPEN)
  {
    forall i ensures !OccursAt("\n" + c + "\n", OPEN, i) {
      if OccursAt("\n" + c + "\n", OPEN, i) {
        CharOf("\n" + c + "\n", OPEN, i, 0);
        CharOf("\n" + c + "\n", OPEN, i, |OPEN| - 1);
        assert "\n" + c + "\n" == "\n" + (c + "\n");
        OccursInParts("\n", c + "\n", OPEN, i);
        OccursInParts(c, "\n", OPEN, i - 1);
      }
    }
  }

  /** A text all of whose start markers are closed: the scan has nothing pending
      at its end. */
  ghost predicate Settled(t: string) {
    exists n: nat :: n <= |t| && (n == 0 || EndsClosed(t[..n])) && !Has(t[n..], OPEN)
  }

  /** Writing a section that is not there appends its name to the list. */
  lemma AppendExtendsList(t: string, name: string, c: string)
    requires ValidName(name) && !Has(name, CLOSE) && !Marked(t, MarkersOf(name))
    requires Settled(t) && !Has(c, OPEN)
    ensures SectionNames(ReplaceSection(t, MarkersOf(name), c)) == SectionNames(t) + [name]
  {
    hide SectionNames, Find;
    var m := MarkersOf(name);
    ValidNamesAreProper(name);
    ReplaceShape(t, m, c);
    BlockLines(m, c, "");
    NamesAroundBlock(t + "\n", name, "\n" + c + "\n", "");
    LinesOpenNothing(c);
    BodyHasNoNames(m, "\n" + c + "\n");
    EmptyHasNoNames("");
    NewNameLast(t, name);
  }

  lemma NewNameLast(t: string, name: string)
    requires Settled(t) && !Has(name, CLOSE)
    ensures SectionNames(t + "\n" + MarkersOf(name).start) == SectionNames(t) + [name]
  {
    hide SectionNames, Find, OccursAt, MarkersOf;
    var m := MarkersOf(name);
    var n: nat :| n <= |t| && (n == 0 || EndsClosed(t[..n])) && !Has(t[n..], OPEN);
    var f := t[n..];
    EmptyHasNoNames(f);
    PieceName(Piece(f + "\n", name)) by { TrailingLine(f); }
    if n == 0 {
      assert t == f;
    } else {
      assert t == t[..n] + f && t + "\n" + m.start == t[..n] + (f + "\n" + m.start);
      NamesDistribute(t[..n], f);
      NamesDistribute(t[..n], f + "\n" + m.start);
    }
  }

  lemma EmptyHasNoNames(f: string)
    requires !Has(f, OPEN)
    ensures SectionNames(f) == []
  {
  }

  lemma TrailingLine(f: string)
    requires !Has(f, OPEN)
    ensures !Has(f + "\n", OPEN)
  {
    forall i ensures !OccursAt(f + "\n", OPEN, i) {
      if OccursAt(f + "\n", OPEN, i) {
        CharOf(f + "\n", OPEN, i, |OPEN| - 1);
        OccursInParts(f, "\n", OPEN, i);
      }
    }
  }
}
