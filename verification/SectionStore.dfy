/** An artifact's text as a store of sections: over any run of edits that bring no markers
    of their own, it behaves as a map from section names to texts. */
module SectionStore {
  import opened Options
  import opened Text
  import opened Sections
  import opened SectionList
  import opened Artifacts

  /** A text of this kind is a document: text without a '<', and sections. */
  datatype Item = Loose(text: string) | Section(name: string, content: string)

  function PrintItem(i: Item): string {
    match i
    case Loose(t) => t
    case Section(n, c) => Block(MarkersOf(n), c)
  }

  function Print(doc: seq<Item>): string {
    if doc == [] then "" else PrintItem(doc[0]) + Print(doc[1..])
  }

  // ---- what a caller can check before an edit ----

  predicate CleanName(name: string) { ValidName(name) && !Has(name, CLOSE) }

  /** The text holds no beginning of a marker. */
  predicate Markerless(c: string) { !Has(c, OPEN) && !Has(c, END_OPEN) }

  predicate CleanItem(i: Item) {
    match i
    case Loose(t) => '<' !in t
    case Section(n, c) => CleanName(n) && Markerless(c)
  }

  predicate CleanEdit(e: Edit) {
    match e
    case Keep => true
    case Rewrite(c) => '<' !in c
    case Append(c) => '<' !in c
    case Prepend(c) => '<' !in c
    case PutSection(n, c) => CleanName(n) && Markerless(c)
    case DropSection(n) => CleanName(n)
  }

  // ---- documents ----

  predicate Names(i: Item, name: string) { i.Section? && i.name == name }

  ghost predicate Clean(doc: seq<Item>) {
    && (forall i | i in doc :: CleanItem(i))
    && (forall j, k | 0 <= j < k < |doc| && doc[j].Section? :: !Names(doc[k], doc[j].name))
  }

  /** Where a section is, or -1. */
  function Place(doc: seq<Item>, name: string): (k: int)
    ensures -1 <= k < |doc|
    ensures if k < 0 then forall j | 0 <= j < |doc| :: !Names(doc[j], name) else Names(doc[k], name)
  {
    if doc == [] then -1
    else if Names(doc[|doc| - 1], name) then |doc| - 1
    else Place(doc[..|doc| - 1], name)
  }

  lemma {:induction false} PrintJoin(a: seq<Item>, b: seq<Item>)
    ensures Print(a + b) == Print(a) + Print(b)
  {
    if a == [] {
      assert a + b == b;
    } else {
      assert (a + b)[1..] == a[1..] + b;
      PrintJoin(a[1..], b);
    }
  }

  lemma PrintOne(i: Item)
    ensures Print([i]) == PrintItem(i)
  {
  }

  lemma MarkerlessLacks(c: string, name: string)
    requires Markerless(c)
    ensures !Has(c, MarkersOf(name).start) && !Has(c, MarkersOf(name).end)
  {
    var m := MarkersOf(name);
    forall i { BeginsWith(c, OPEN, name + CLOSE, i); }
    forall i { BeginsWith(c, END_OPEN, name + CLOSE, i); }
    assert m.start == OPEN + (name + CLOSE) && m.end == END_OPEN + (name + CLOSE);
  }

  lemma BeginsWith(s: string, pat: string, more: string, i: int)
    ensures OccursAt(s, pat + more, i) ==> OccursAt(s, pat, i)
  {
    if OccursAt(s, pat + more, i) {
      assert s[i..i + |pat|] == s[i..i + |pat + more|][..|pat|] == (pat + more)[..|pat|] == pat;
    }
  }

  lemma LooseLacks(t: string, rest: string, w: string)
    requires '<' !in t && MarkerLike(w) && !Has(rest, w)
    ensures !Has(t + rest, w)
  {
    assert forall k | 0 <= k < |t| :: (t + rest)[k] == t[k] && t[k] in t;
    forall j ensures OccursAt(t + rest, w, j) ==> OccursAt(rest, w, j - |t|) {
      if OccursAt(t + rest, w, j) {
        CharOf(t + rest, w, j, 0);
        OccursInParts(t, rest, w, j);
      }
    }
  }

  /** In front of a text without it, a marker is neither in loose text nor in a section of
      another name. */
  lemma ItemLacks(i: Item, rest: string, name: string, w: string)
    requires CleanItem(i) && CleanName(name) && !Names(i, name) && w in {MarkersOf(name).start, MarkersOf(name).end}
    requires !Has(rest, w)
    ensures !Has(PrintItem(i) + rest, w)
  {
    hide Find, MarkersOf, Foreign, OccursAt;
    ValidNamesAreProper(name);
    match i
    case Loose(t) =>
      LooseLacks(t, rest, w);
    case Section(a, c) =>
      ValidNamesAreProper(a);
      OtherNamesAreForeign(a, name);
      MarkerlessLacks(c, name);
      var m, x := MarkersOf(a), "\n" + c + "\n";
      LinesLack(c, w);
      BlockSplits("", m, x, rest, w);
      BlockLines(m, c, rest);
      assert "" + (m.start + x + m.end + rest) == PrintItem(i) + rest;
      FindSplit("" + (m.start + x + m.end + rest), "", |m.start| + |x| + |m.end|, rest, w);
      NothingInEmpty(w);
  }

  lemma NothingInEmpty(w: string)
    requires w != ""
    ensures !Has("", w)
  {
  }

  lemma {:induction false} Absent(doc: seq<Item>, name: string)
    requires (forall i | i in doc :: CleanItem(i) && !Names(i, name)) && CleanName(name)
    ensures !Has(Print(doc), MarkersOf(name).start) && !Has(Print(doc), MarkersOf(name).end)
  {
    hide Has;
    NothingInEmpty(MarkersOf(name).start);
    NothingInEmpty(MarkersOf(name).end);
    if doc != [] {
      Absent(doc[1..], name);
      ItemLacks(doc[0], Print(doc[1..]), name, MarkersOf(name).start);
      ItemLacks(doc[0], Print(doc[1..]), name, MarkersOf(name).end);
    }
  }

  /** Between texts without its markers, a block's markers are found where it stands. */
  lemma BlockFound(p: string, name: string, c: string, q: string)
    requires CleanName(name) && Markerless(c)
    requires var m := MarkersOf(name); !Has(p, m.start) && !Has(p, m.end)
    ensures var m := MarkersOf(name); var t := p + (Block(m, c) + q);
      StartAt(t, m) == |p| && EndAt(t, m) == |p| + |m.start| + |c| + 2
  {
    hide Block, MarkerLike, MarkersOf, Find, OccursAt, Markerless, ValidName;
    ValidNamesAreProper(name);
    MarkerlessLacks(c, name);
    var m := MarkersOf(name);
    BlockMarkers(p, m, c, q);
    StartFound(p, m, c, q);
    EndFound(p, m, c, q);
  }

  lemma StartFound(p: string, m: Markers, c: string, q: string)
    requires Proper(m) && !Has(p, m.start)
    ensures StartAt(p + (Block(m, c) + q), m) == |p|
  {
    hide Block, MarkerLike, Find, OccursAt;
    var t := p + (Block(m, c) + q);
    BlockMarkers(p, m, c, q);
    BlockOpens(m, c, q);
    forall j | 0 <= j < |p| ensures !OccursAt(t, m.start, j) {
      if OccursAt(t, m.start, j) {
        NoStraddle(p, Block(m, c) + q, m.start, j);
        NotNegative(Block(m, c) + q, m.start, j - |p|);
      }
    }
    FindIs(t, m.start, |p|);
  }

  lemma EndFound(p: string, m: Markers, c: string, q: string)
    requires Proper(m) && !Has(p, m.end) && !Has(c, m.end)
    ensures EndAt(p + (Block(m, c) + q), m) == |p| + |m.start| + |c| + 2
  {
    hide Block, MarkerLike, Find, OccursAt;
    var t, n := p + (Block(m, c) + q), |p| + |m.start| + |c| + 2;
    BlockMarkers(p, m, c, q);
    KindsDiffer(m);
    forall j | 0 <= j < n ensures !OccursAt(t, m.end, j) {
      if OccursAt(t, m.end, j) {
        OccursAroundBlock(p, m, c, q, m.end, j);
        NotNegative(m.end + q, m.end, j - n);
        NotNegative(c, m.end, j - |p| - |m.start| - 1);
      }
    }
    FindIs(t, m.end, n);
  }

  lemma BlockOpens(m: Markers, c: string, q: string)
    requires Proper(m)
    ensures var b := Block(m, c) + q; |b| > 0 && b[0] == '<'
  {
  }

  lemma NotNegative(s: string, w: string, i: int)
    ensures i < 0 ==> !OccursAt(s, w, i)
  {
  }

  /** Where a document prints its k-th item, if that is a section. */
  lemma Found(doc: seq<Item>, k: nat)
    requires Clean(doc) && k < |doc| && doc[k].Section?
    ensures var m, t, p := MarkersOf(doc[k].name), Print(doc), Print(doc[..k]);
      && t == p + (Block(m, doc[k].content) + Print(doc[k + 1..]))
      && StartAt(t, m) == |p| && EndAt(t, m) == |p| + |m.start| + |doc[k].content| + 2
  {
    var p, i, q := doc[..k], doc[k], doc[k + 1..];
    assert doc == p + ([i] + q);
    PrintJoin(p, [i] + q);
    PrintJoin([i], q);
    PrintOne(i);
    forall j | j in p ensures CleanItem(j) && !Names(j, i.name) {
      assert j in doc;
    }
    assert i in doc;
    Absent(p, i.name);
    BlockFound(Print(p), i.name, i.content, Print(q));
  }

  // ---- the edits, on documents ----

  function Put(doc: seq<Item>, name: string, c: string): seq<Item> {
    var k := Place(doc, name);
    if k >= 0 then doc[k := Section(name, c)] else doc + [Loose("\n"), Section(name, c)]
  }

  function Drop(doc: seq<Item>, name: string): seq<Item> {
    var k := Place(doc, name);
    if k >= 0 then doc[..k] + doc[k + 1..] else doc
  }

  /** A section is marked in the text exactly when the document has it, and then the text
      is cut where the document is. */
  lemma MarkedIff(doc: seq<Item>, name: string)
    requires Clean(doc) && CleanName(name)
    ensures var m, t, k := MarkersOf(name), Print(doc), Place(doc, name);
      && (Marked(t, m) <==> k >= 0)
      && (k >= 0 ==> Before(t, m) == Print(doc[..k]) && After(t, m) == Print(doc[k + 1..]))
      && LoadSection(t, m) == if k >= 0 then Strip(doc[k].content) else ""
  {
    hide Marked, Before, After, LoadSection, Strip, Block, CleanName, StartAt, EndAt, Has;
    var m, t, k := MarkersOf(name), Print(doc), Place(doc, name);
    if k >= 0 {
      Found(doc, k);
      CutAt(Print(doc[..k]), m, doc[k].content, Print(doc[k + 1..]));
    } else {
      Absent(doc, name);
      NothingLoaded(t, m);
    }
  }

  /** What a text is cut into where a block's markers are found. */
  lemma CutAt(p: string, m: Markers, c: string, q: string)
    requires var t := p + (Block(m, c) + q); StartAt(t, m) == |p| && EndAt(t, m) == |p| + |m.start| + |c| + 2
    ensures var t := p + (Block(m, c) + q);
      Marked(t, m) && Before(t, m) == p && After(t, m) == q && LoadSection(t, m) == Strip(c)
  {
    hide Find, Strip, Block, LoadBetween;
    BlockMarkers(p, m, c, q);
    LoadBlock(p, m, c, q);
  }

  lemma NothingLoaded(t: string, m: Markers)
    requires !Has(t, m.start) && !Has(t, m.end)
    ensures !Marked(t, m) && LoadSection(t, m) == ""
  {
  }

  lemma PutIs(doc: seq<Item>, name: string, c: string)
    requires Clean(doc) && CleanName(name)
    ensures ReplaceSection(Print(doc), MarkersOf(name), c) == Print(Put(doc, name, c))
  {
    hide Block, Marked, Before, After, ReplaceSection, Print, CleanName, Clean, LoadSection, Place;
    MarkedIff(doc, name);
    ReplaceShape(Print(doc), MarkersOf(name), c);
    var k, i := Place(doc, name), Section(name, c);
    PrintOne(i);
    if k >= 0 {
      assert Put(doc, name, c) == doc[..k] + ([i] + doc[k + 1..]);
      PrintJoin(doc[..k], [i] + doc[k + 1..]);
      PrintJoin([i], doc[k + 1..]);
    } else {
      PrintJoin(doc, [Loose("\n"), i]);
      PrintJoin([Loose("\n")], [i]);
      PrintOne(Loose("\n"));
      assert [Loose("\n")] + [i] == [Loose("\n"), i];
      var t := Print(doc);
      assert Block(MarkersOf(name), c) + "" == Block(MarkersOf(name), c);
      assert t + "\n" + Block(MarkersOf(name), c) == t + ("\n" + Block(MarkersOf(name), c));
    }
  }

  lemma DropIs(doc: seq<Item>, name: string)
    requires Clean(doc) && CleanName(name)
    ensures Marked(Print(doc), MarkersOf(name)) <==> Place(doc, name) >= 0
    ensures Marked(Print(doc), MarkersOf(name)) ==> DeleteSection(Print(doc), MarkersOf(name)) == Print(Drop(doc, name))
  {
    hide Marked, Before, After;
    MarkedIff(doc, name);
    var k := Place(doc, name);
    if k >= 0 { PrintJoin(doc[..k], doc[k + 1..]); }
  }

  // ---- runs ----

  /** The text after a run of edits; one that is refused leaves it as it is. */
  function TextAfter(start: string, edits: seq<Edit>): string {
    if edits == [] then start
    else
      var t := TextAfter(start, edits[..|edits| - 1]);
      match Edited(t, edits[|edits| - 1]) case Some(u) => u case None => t
  }

  /** The map after the same run: writes and removals of entries. */
  function MapAfter(edits: seq<Edit>): map<string, string> {
    if edits == [] then map[]
    else
      var m := MapAfter(edits[..|edits| - 1]);
      match edits[|edits| - 1]
      case PutSection(n, c) => m[n := c]
      case DropSection(n) => m - {n}
      case Rewrite(_) => map[]
      case _ => m
  }

  /** The document holds what the map holds. */
  ghost predicate Holds(doc: seq<Item>, m: map<string, string>) {
    && Clean(doc)
    && forall n :: HoldsAt(doc, m, n)
  }

  ghost predicate HoldsAt(doc: seq<Item>, m: map<string, string>, n: string) {
    (n in m <==> Place(doc, n) >= 0) && (n in m ==> m[n] == doc[Place(doc, n)].content)
  }

  lemma PlaceIs(doc: seq<Item>, name: string, k: nat)
    requires Clean(doc) && k < |doc| && Names(doc[k], name)
    ensures Place(doc, name) == k
  {
    var j := Place(doc, name);
    if j >= 0 { OneNamed(doc, name, j, k); }
  }

  lemma OneNamed(doc: seq<Item>, name: string, j: nat, k: nat)
    requires Clean(doc) && j < |doc| && k < |doc|
    ensures Names(doc[j], name) && Names(doc[k], name) ==> j == k
  {
    if j < k && doc[j].Section? { assert !Names(doc[k], doc[j].name); }
    if k < j && doc[k].Section? { assert !Names(doc[j], doc[k].name); }
  }

  lemma PutHolds(doc: seq<Item>, m: map<string, string>, name: string, c: string)
    requires Holds(doc, m) && CleanName(name) && Markerless(c)
    ensures Holds(Put(doc, name, c), m[name := c])
  {
    hide Place, CleanItem;
    var put, k := Put(doc, name, c), Place(doc, name);
    CleanParts(name, c);
    PutClean(doc, name, c);
    var more := m[name := c];
    forall n ensures HoldsAt(put, more, n) {
      assert HoldsAt(doc, m, n);
      if n == name {
        PlaceIs(put, name, if k >= 0 then k else |doc| + 1);
      } else if n in m {
        assert put[Place(doc, n)] == doc[Place(doc, n)];
        PlaceIs(put, n, Place(doc, n));
      } else {
        assert forall j | 0 <= j < |doc| :: !Names(doc[j], n);
      }
    }
  }

  lemma CleanParts(name: string, c: string)
    requires CleanName(name) && Markerless(c)
    ensures CleanItem(Section(name, c)) && CleanItem(Loose("\n"))
  {
  }

  lemma PutClean(doc: seq<Item>, name: string, c: string)
    requires Clean(doc) && CleanItem(Section(name, c)) && CleanItem(Loose("\n"))
    ensures Clean(Put(doc, name, c))
  {
    hide Place, CleanItem;
    var put, k := Put(doc, name, c), Place(doc, name);
    forall i | i in put ensures CleanItem(i) {
      assert i in doc || i == Section(name, c) || i == Loose("\n");
    }
    if k >= 0 {
      forall j | 0 <= j < |doc| { OneNamed(doc, name, j, k); }
    }
  }

  lemma DropHolds(doc: seq<Item>, m: map<string, string>, name: string)
    requires Holds(doc, m)
    ensures Holds(Drop(doc, name), m - {name})
  {
    hide Clean, Place, HoldsAt;
    var k := Place(doc, name);
    if k >= 0 { DropClean(doc, k); }
    forall n ensures HoldsAt(Drop(doc, name), m - {name}, n) {
      assert HoldsAt(doc, m, n) && HoldsAt(doc, m, name);
      DropHoldsAt(doc, m, name, n);
    }
  }

  lemma DropHoldsAt(doc: seq<Item>, m: map<string, string>, name: string, n: string)
    requires Clean(doc) && HoldsAt(doc, m, n) && HoldsAt(doc, m, name)
    ensures HoldsAt(Drop(doc, name), m - {name}, n)
  {
    hide Clean, Place;
    var drop, k, j := Drop(doc, name), Place(doc, name), Place(doc, n);
    if k >= 0 {
      DropPlace(doc, k, n);
      assert 0 <= j < k ==> drop[j] == doc[j];
      assert j > k ==> drop[j - 1] == doc[j];
    }
  }

  lemma DropClean(doc: seq<Item>, k: nat)
    requires Clean(doc) && k < |doc|
    ensures Clean(doc[..k] + doc[k + 1..])
  {
    hide CleanItem, Names;
    var drop := doc[..k] + doc[k + 1..];
    assert forall j | 0 <= j < |drop| :: drop[j] == doc[if j < k then j else j + 1];
    assert forall i | i in drop :: i in doc;
  }

  lemma DropPlace(doc: seq<Item>, k: nat, n: string)
    requires Clean(doc) && k < |doc| && doc[k].Section?
    ensures var drop, j := doc[..k] + doc[k + 1..], Place(doc, n);
      Place(drop, n) == if j < 0 || n == doc[k].name then -1 else if j < k then j else j - 1
  {
    hide CleanItem, Place, Clean;
    DropClean(doc, k);
    var drop, j := doc[..k] + doc[k + 1..], Place(doc, n);
    assert forall i | 0 <= i < |drop| :: drop[i] == doc[if i < k then i else i + 1];
    if j >= 0 && n != doc[k].name {
      PlaceIs(drop, n, if j < k then j else j - 1);
    } else if j >= 0 {
      forall i | 0 <= i < |doc| { OneNamed(doc, n, i, k); }
    }
  }

  /** Loose text at either end names nothing. */
  lemma LooseBehind(doc: seq<Item>, m: map<string, string>, t: string)
    requires Holds(doc, m) && '<' !in t
    ensures Holds(doc + [Loose(t)], m)
  {
    hide CleanItem, Place;
    CleanLoose(t);
    var more := doc + [Loose(t)];
    assert forall j | 0 <= j < |doc| :: more[j] == doc[j];
    assert forall i | i in more :: i in doc || i == Loose(t);
    assert Clean(more);
    forall n ensures HoldsAt(more, m, n) {
      assert HoldsAt(doc, m, n);
      if Place(doc, n) >= 0 {
        PlaceIs(more, n, Place(doc, n));
      }
    }
  }

  lemma LooseInFront(doc: seq<Item>, m: map<string, string>, t: string)
    requires Holds(doc, m) && '<' !in t
    ensures Holds([Loose(t)] + doc, m)
  {
    hide Clean, Place, CleanItem;
    FrontClean(doc, t);
    var more := [Loose(t)] + doc;
    forall n ensures HoldsAt(more, m, n) {
      assert HoldsAt(doc, m, n);
      if Place(doc, n) >= 0 {
        assert more[Place(doc, n) + 1] == doc[Place(doc, n)];
        PlaceIs(more, n, Place(doc, n) + 1);
      } else {
        assert forall j | 0 < j < |more| :: more[j] == doc[j - 1];
      }
    }
  }

  lemma FrontClean(doc: seq<Item>, t: string)
    requires Clean(doc) && '<' !in t
    ensures Clean([Loose(t)] + doc)
  {
    hide CleanItem, Names;
    CleanLoose(t);
    var more := [Loose(t)] + doc;
    assert forall j | 0 < j < |more| :: more[j] == doc[j - 1];
    forall j, k | 0 <= j < k < |more| && more[j].Section? ensures !Names(more[k], more[j].name) {
      assert more[j] == doc[j - 1] && more[k] == doc[k - 1];
    }
  }

  lemma CleanLoose(t: string)
    requires '<' !in t
    ensures CleanItem(Loose(t))
  {
  }

  lemma OnlyLoose(t: string)
    requires '<' !in t
    ensures Holds([Loose(t)], map[]) && Print([Loose(t)]) == t
  {
    PrintOne(Loose(t));
  }

  /** One edit does to the document what it does to the map. */
  lemma EditHolds(doc: seq<Item>, m: map<string, string>, e: Edit) returns (after: seq<Item>)
    requires Holds(doc, m) && CleanEdit(e)
    ensures Print(after) == (match Edited(Print(doc), e) case Some(u) => u case None => Print(doc))
    ensures Holds(after, match e
      case PutSection(n, c) => m[n := c]
      case DropSection(n) => m - {n}
      case Rewrite(_) => map[]
      case _ => m)
  {
    hide Holds, ReplaceSection, DeleteSection, Marked, Place;
    match e
    case Keep => after := doc;
    case Rewrite(c) =>
      OnlyLoose(c);
      after := [Loose(c)];
    case Append(c) =>
      LooseBehind(doc, m, c);
      PrintJoin(doc, [Loose(c)]);
      PrintOne(Loose(c));
      after := doc + [Loose(c)];
    case Prepend(c) =>
      LooseInFront(doc, m, c);
      PrintJoin([Loose(c)], doc);
      PrintOne(Loose(c));
      after := [Loose(c)] + doc;
    case PutSection(n, c) =>
      HoldsClean(doc, m);
      PutIs(doc, n, c);
      PutHolds(doc, m, n, c);
      after := Put(doc, n, c);
    case DropSection(n) =>
      HoldsClean(doc, m);
      DropIs(doc, n);
      DropHolds(doc, m, n);
      after := Drop(doc, n);
  }

  lemma HoldsClean(doc: seq<Item>, m: map<string, string>)
    requires Holds(doc, m)
    ensures Clean(doc)
  {
  }

  lemma {:induction false} RunHolds(start: string, edits: seq<Edit>) returns (doc: seq<Item>)
    requires '<' !in start && forall e | e in edits :: CleanEdit(e)
    ensures Print(doc) == TextAfter(start, edits) && Holds(doc, MapAfter(edits))
  {
    hide Holds, Edited, CleanEdit;
    if edits == [] {
      OnlyLoose(start);
      doc := [Loose(start)];
    } else {
      var n := |edits| - 1;
      doc := RunHolds(start, edits[..n]);
      doc := EditHolds(doc, MapAfter(edits[..n]), edits[n]);
    }
  }

  /** Over every run of edits from a text without sections, whatever is written, rewritten,
      dropped, put in front, put behind: a section loads as the text last written under its
      name, stripped, or as nothing if it was dropped or the artifact rewritten since, and
      can be dropped exactly in the first case. */
  lemma TextIsAMap(start: string, edits: seq<Edit>, name: string)
    requires '<' !in start && CleanName(name) && forall e | e in edits :: CleanEdit(e)
    ensures var t, m := TextAfter(start, edits), MapAfter(edits);
      && LoadSection(t, MarkersOf(name)) == (if name in m then Strip(m[name]) else "")
      && (Edited(t, DropSection(name)).Some? <==> name in m)
  {
    hide LoadSection, Strip, Marked, Before, After, DeleteSection, TextAfter, MapAfter, Place, Clean;
    var doc := RunHolds(start, edits);
    MarkedIff(doc, name);
    assert HoldsAt(doc, MapAfter(edits), name);
  }

  // ---- the list of sections ----

  function NamesOf(doc: seq<Item>): seq<string> {
    if doc == [] then []
    else (if doc[0].Section? then [doc[0].name] else []) + NamesOf(doc[1..])
  }

  lemma {:induction false} ListIs(doc: seq<Item>)
    requires forall i | i in doc :: CleanItem(i)
    ensures SectionNames(Print(doc)) == NamesOf(doc)
  {
    hide SectionNames, PrintItem;
    if doc == [] {
      EmptyHasNoNames("");
    } else {
      ListIs(doc[1..]);
      ItemNames(doc[0], Print(doc[1..]));
    }
  }

  lemma ItemNames(i: Item, rest: string)
    requires CleanItem(i)
    ensures SectionNames(PrintItem(i) + rest) == (if i.Section? then [i.name] else []) + SectionNames(rest)
  {
    hide SectionNames, Block, MarkersOf, Find;
    match i
    case Loose(t) => LooseNames(t, rest);
    case Section(n, c) =>
      var m, x := MarkersOf(n), "\n" + c + "\n";
      ValidNamesAreProper(n);
      NamesAroundBlock("", n, x, rest);
      BlockLines(m, c, rest);
      assert "" + (m.start + x + m.end + rest) == Block(m, c) + rest;
      NothingInEmpty(OPEN);
      PieceName(Piece("", n));
      assert PrintPiece(Piece("", n)) == "" + m.start;
      LinesOpenNothing(c);
      BodyHasNoNames(m, x);
  }

  lemma LooseNames(t: string, rest: string)
    requires '<' !in t
    ensures SectionNames(t + rest) == SectionNames(rest)
  {
    assert forall k | 0 <= k < |t| :: (t + rest)[k] == t[k] && t[k] in t;
    forall j ensures OccursAt(t + rest, OPEN, j) <==> OccursAt(rest, OPEN, j - |t|) {
      OccursInParts(t, rest, OPEN, j);
      if OccursAt(t + rest, OPEN, j) {
        CharOf(t + rest, OPEN, j, 0);
      }
    }
    var a, b := Find(t + rest, OPEN, 0), Find(rest, OPEN, 0);
    assert b >= 0 ==> OccursAt(t + rest, OPEN, b + |t|);
    assert a >= 0 ==> OccursAt(rest, OPEN, a - |t|);
    if b >= 0 { SuffixCut(t, rest, b); }
  }

  lemma {:induction false} NamesAre(doc: seq<Item>)
    requires Clean(doc)
    ensures forall n :: n in NamesOf(doc) <==> Place(doc, n) >= 0
    ensures forall j, k | 0 <= j < k < |NamesOf(doc)| :: NamesOf(doc)[j] != NamesOf(doc)[k]
  {
    hide CleanItem, Place;
    if doc != [] {
      var rest := doc[1..];
      RestClean(doc);
      NamesAre(rest);
      forall n { PlaceInRest(doc, n); }
      var first := if doc[0].Section? then [doc[0].name] else [];
      assert NamesOf(doc) == first + NamesOf(rest);
      var names, more := NamesOf(doc), NamesOf(rest);
      forall n | n in first ensures n !in more { assert Place(rest, n) < 0; }
      forall j, k | 0 <= j < k < |names| ensures names[j] != names[k] {
        assert names[k] == more[k - |first|] && names[k] in more;
        assert j >= |first| ==> names[j] == more[j - |first|];
      }
    }
  }

  lemma PlaceInRest(doc: seq<Item>, n: string)
    requires Clean(doc) && doc != []
    ensures Place(doc, n) >= 0 <==> Names(doc[0], n) || Place(doc[1..], n) >= 0
    ensures Names(doc[0], n) ==> Place(doc[1..], n) < 0
  {
    hide CleanItem, Place;
    var rest := doc[1..];
    var k := Place(rest, n);
    assert forall j | 0 <= j < |rest| :: rest[j] == doc[j + 1];
    if k >= 0 { OneNamed(doc, n, 0, k + 1); }
    if Place(doc, n) > 0 { assert Names(rest[Place(doc, n) - 1], n); }
  }

  lemma RestClean(doc: seq<Item>)
    requires Clean(doc) && doc != []
    ensures Clean(doc[1..])
  {
    hide CleanItem, Names;
    var rest := doc[1..];
    assert forall k | 0 <= k < |rest| :: rest[k] == doc[k + 1];
    assert forall i | i in rest :: i in doc;
  }

  /** And the list of sections is the list of the map's names, each once. */
  lemma ListIsTheKeys(start: string, edits: seq<Edit>)
    requires '<' !in start && forall e | e in edits :: CleanEdit(e)
    ensures var names, m := SectionNames(TextAfter(start, edits)), MapAfter(edits);
      && (forall n :: n in names <==> n in m)
      && (forall j, k | 0 <= j < k < |names| :: names[j] != names[k])
  {
    hide SectionNames, TextAfter, MapAfter, Place, NamesOf, CleanItem;
    var doc := RunHolds(start, edits);
    ListIs(doc);
    NamesAre(doc);
    forall n ensures n in MapAfter(edits) <==> Place(doc, n) >= 0 { assert HoldsAt(doc, MapAfter(edits), n); }
  }

  // ---- text at the ends ----

  /** Over a run of appends the text is the start and then the appended texts, in order. */
  lemma {:induction false} AppendsAccumulate(start: string, texts: seq<string>)
    ensures TextAfter(start, seq(|texts|, i requires 0 <= i < |texts| => Append(texts[i]))) == start + Joined(texts)
  {
    var edits := seq(|texts|, i requires 0 <= i < |texts| => Append(texts[i]));
    if texts != [] {
      var n := |texts| - 1;
      AppendsAccumulate(start, texts[..n]);
      assert edits[..n] == seq(n, i requires 0 <= i < n => Append(texts[..n][i]));
      assert start + Joined(texts[..n]) + texts[n] == start + (Joined(texts[..n]) + texts[n]);
    } else {
      assert start + "" == start;
    }
  }

  /** Over a run of prepends it is the texts put in front, the last one first, and then the
      start. */
  lemma {:induction false} PrependsAccumulate(start: string, texts: seq<string>)
    ensures TextAfter(start, seq(|texts|, i requires 0 <= i < |texts| => Prepend(texts[i])))
      == Joined(seq(|texts|, i requires 0 <= i < |texts| => texts[|texts| - 1 - i])) + start
  {
    var edits := seq(|texts|, i requires 0 <= i < |texts| => Prepend(texts[i]));
    if texts != [] {
      var n := |texts| - 1;
      var back := seq(|texts|, i requires 0 <= i < |texts| => texts[n - i]);
      var rest := seq(n, i requires 0 <= i < n => texts[..n][n - 1 - i]);
      PrependsAccumulate(start, texts[..n]);
      assert edits[..n] == seq(n, i requires 0 <= i < n => Prepend(texts[..n][i]));
      assert back == [texts[n]] + rest;
      JoinedAll([texts[n]], rest);
      JoinedOne(texts[n]);
      assert texts[n] + (Joined(rest) + start) == texts[n] + Joined(rest) + start;
    } else {
      assert "" + start == start;
    }
  }
}
