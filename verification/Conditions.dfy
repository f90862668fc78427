/** The condition evaluator behind graph edges: an expression is read again at every
    level by splitting its text on "or", then "and", then a leading "not". */
module Conditions {
  import opened Text

  /** Overflow: the recursion never ends, and Python raises RecursionError. */
  datatype Verdict = True | False | Overflow

  function Not(v: Verdict): Verdict {
    match v
    case True => False
    case False => True
    case Overflow => Overflow
  }

  // ---- words and separators, ignoring ASCII case ----

  predicate IsWordChar(c: char) {
    'a' <= LowerChar(c) <= 'z' || '0' <= c <= '9' || c == '_'
  }

  lemma WordCharsAre(c: char)
    ensures IsWordChar(c) <==> LetterOrDigit(c) || c == '_'
  {
    SmallLetters(c);
    Capitals(c);
    Digits(c);
    assert 'A' <= c <= 'Z' ==> 'a' <= LowerChar(c) <= 'z';
  }

  predicate Reads(s: string, w: string, i: int) {
    0 <= i && i + |w| <= |s| && forall k | 0 <= k < |w| :: LowerChar(s[i + k]) == w[k]
  }

  /** `\bw\b` matches at i. */
  predicate WordAt(s: string, w: string, i: int) {
    && Reads(s, w, i)
    && (i == 0 || !IsWordChar(s[i - 1]))
    && (i + |w| == |s| || !IsWordChar(s[i + |w|]))
  }

  predicate HasWord(s: string, w: string) {
    exists i :: 0 <= i < |s| && WordAt(s, w, i)
  }

  /** `\s+w\s+` matches around the word at i. */
  predicate SeparatorAt(s: string, w: string, i: int) {
    0 < i && i + |w| < |s| && IsSpace(s[i - 1]) && Reads(s, w, i) && IsSpace(s[i + |w|])
  }

  function FirstSeparator(s: string, w: string, from: nat): (r: int)
    ensures r == -1 ==> forall i :: from <= i ==> !SeparatorAt(s, w, i)
    ensures r != -1 ==> from <= r && SeparatorAt(s, w, r) && forall i :: from <= i < r ==> !SeparatorAt(s, w, i)
    decreases |s| - from
  {
    if from >= |s| then -1
    else if SeparatorAt(s, w, from) then from
    else FirstSeparator(s, w, from + 1)
  }

  ghost predicate Joined(s: string, w: string) {
    forall i :: !SeparatorAt(s, w, i)
  }

  /** `re.split(r"\s+w\s+", s)`: each separator takes the whitespace on both sides. */
  function Split(s: string, w: string): (parts: seq<string>)
    requires |w| > 0
    ensures |parts| > 0
    ensures |parts| == 1 ==> parts == [s] && FirstSeparator(s, w, 0) == -1
    ensures |parts| > 1 ==> forall i | 0 <= i < |parts| :: |parts[i]| < |s|
    decreases |s|
  {
    var q := FirstSeparator(s, w, 0);
    if q == -1 then [s]
    else
      TrimLeftStarts(s[q + |w|..]);
      TrimRightEnds(s[..q]);
      [TrimRight(s[..q])] + Split(TrimLeft(s[q + |w|..]), w)
  }

  // ---- the evaluator ----

  /** One call of `evaluate` with room for `depth` calls on the stack. `leaf` answers
      for everything that is not a literal or an operator. */
  function Evaluate(expr: string, leaf: string -> bool, depth: nat): Verdict
    decreases depth, 0
  {
    var e := Strip(expr);
    if depth == 0 then Overflow
    else if e == "" then False
    else if |e| == 4 && Reads(e, "true", 0) then True
    else if |e| == 5 && Reads(e, "false", 0) then False
    else if HasWord(e, "or") then EvaluateAny(Split(e, "or"), leaf, depth - 1)
    else if HasWord(e, "and") then EvaluateAll(Split(e, "and"), leaf, depth - 1)
    else if Reads(e, "not ", 0) then Not(Evaluate(e[4..], leaf, depth - 1))
    else if leaf(e) then True else False
  }

  function EvaluateAny(parts: seq<string>, leaf: string -> bool, depth: nat): Verdict
    decreases depth, |parts| + 1
  {
    if parts == [] then False
    else
      var v := Evaluate(parts[0], leaf, depth);
      if v == False then EvaluateAny(parts[1..], leaf, depth) else v
  }

  function EvaluateAll(parts: seq<string>, leaf: string -> bool, depth: nat): Verdict
    decreases depth, |parts| + 1
  {
    if parts == [] then True
    else
      var v := Evaluate(parts[0], leaf, depth);
      if v == True then EvaluateAll(parts[1..], leaf, depth) else v
  }

  /** Case does not matter: a word is read where the text in lower case spells it. */
  lemma ReadsIs(s: string, w: string, i: int)
    ensures Reads(s, w, i) <==> 0 <= i && i + |w| <= |s| && Lower(s[i..i + |w|]) == w
  {
    if 0 <= i && i + |w| <= |s| {
      var t := Lower(s[i..i + |w|]);
      assert forall k | 0 <= k < |w| :: t[k] == LowerChar(s[i + k]);
    }
  }

  /** The words that decide at once, and what a negation does, in any case and with any
      whitespace around. */
  lemma WordsDecide(expr: string, leaf: string -> bool, depth: nat)
    requires depth > 0
    ensures Strip(expr) == "" ==> Evaluate(expr, leaf, depth) == False
    ensures Lower(Strip(expr)) == "true" ==> Evaluate(expr, leaf, depth) == True
    ensures Lower(Strip(expr)) == "false" ==> Evaluate(expr, leaf, depth) == False
    ensures var e := Strip(expr);
      !Stuck(e) && |e| >= 4 && Lower(e[..4]) == "not " ==>
        Evaluate(e[4..], leaf, depth - 1) != Overflow ==> Evaluate(expr, leaf, depth) == if Evaluate(e[4..], leaf, depth - 1) == True then False else True
  {
    var e := Strip(expr);
    ReadsIs(e, "true", 0);
    ReadsIs(e, "false", 0);
    ReadsIs(e, "not ", 0);
    assert e[0..|e|] == e;
    assert |e| == 4 && Lower(e) == "true" ==> e[..4] == e;
    if |e| >= 4 && Lower(e[..4]) == "not " {
      assert Lower(e[..4])[0] == LowerChar(e[0]) == 'n';
      assert |e| == 4 ==> e[..4] == e;
      assert |e| == 5 ==> Lower(e)[0] == 'n';
    }
  }

  // ---- formulas: "or" of "and" of negated atoms ----

  datatype Literal = Literal(nots: nat, atom: string)
  type Formula = seq<seq<Literal>>

  /** An atom in which an operator word is stuck: it is there, but cannot be split on. */
  predicate Stuck(atom: string) {
    HasWord(atom, "or") || HasWord(atom, "and")
  }

  function AtomValue(atom: string, leaf: string -> bool): Verdict {
    if atom == "" then False
    else if |atom| == 4 && Reads(atom, "true", 0) then True
    else if |atom| == 5 && Reads(atom, "false", 0) then False
    else if Stuck(atom) then Overflow
    else if leaf(atom) then True else False
  }

  function LiteralValue(l: Literal, leaf: string -> bool): Verdict
    decreases l.nots
  {
    if l.nots == 0 then AtomValue(l.atom, leaf) else Not(LiteralValue(Literal(l.nots - 1, l.atom), leaf))
  }

  function AllValue(ls: seq<Literal>, leaf: string -> bool): Verdict {
    if ls == [] then True
    else
      var v := LiteralValue(ls[0], leaf);
      if v == True then AllValue(ls[1..], leaf) else v
  }

  /** The standard meaning, with operands taken left to right and only as needed. */
  function Value(f: Formula, leaf: string -> bool): Verdict {
    if f == [] then False
    else
      var v := AllValue(f[0], leaf);
      if v == False then Value(f[1..], leaf) else v
  }

  // ---- reading a formula off a string ----

  function ParseLiteral(e: string): Literal
    decreases |e|
  {
    if Stuck(e) || !Reads(e, "not ", 0) then Literal(0, e)
    else
      StripTight(e[4..]);
      var l := ParseLiteral(Strip(e[4..]));
      Literal(l.nots + 1, l.atom)
  }

  function ParseLiterals(parts: seq<string>): seq<Literal> {
    if parts == [] then [] else [ParseLiteral(Strip(parts[0]))] + ParseLiterals(parts[1..])
  }

  function ParseAnd(e: string): seq<Literal> {
    if HasWord(e, "or") then [Literal(0, e)] else ParseLiterals(Split(e, "and"))
  }

  function ParseAnds(parts: seq<string>): Formula {
    if parts == [] then [] else [ParseAnd(Strip(parts[0]))] + ParseAnds(parts[1..])
  }

  function Parse(expr: string): Formula {
    ParseAnds(Split(Strip(expr), "or"))
  }

  // ---- evaluation means the formula it reads ----

  predicate Operator(w: string) { w == "or" || w == "and" }

  lemma ReadsChar(s: string, w: string, i: int, k: nat)
    requires k < |w|
    ensures Reads(s, w, i) ==> LowerChar(s[i + k]) == w[k]
  {
  }

  /** Reading depends on the characters read only. */
  lemma ReadsSame(s: string, t: string, w: string, i: nat, j: nat)
    requires i + |w| <= |s| && j + |w| <= |t| && s[i..i + |w|] == t[j..j + |w|]
    ensures Reads(s, w, i) <==> Reads(t, w, j)
  {
    forall k | 0 <= k < |w| ensures LowerChar(s[i + k]) == w[k] <==> LowerChar(t[j + k]) == w[k] {
      assert s[i..i + |w|][k] == t[j..j + |w|][k];
    }
  }

  lemma SeparatorIsWord(s: string, w: string, i: int)
    requires Operator(w) && SeparatorAt(s, w, i)
    ensures HasWord(s, w)
  {
    assert WordAt(s, w, i);
  }

  lemma WordFreeIsWhole(s: string, w: string)
    requires Operator(w) && !HasWord(s, w)
    ensures Split(s, w) == [s]
  {
    var q := FirstSeparator(s, w, 0);
    if q != -1 { SeparatorIsWord(s, w, q); }
  }

  lemma NoSeparatorIsWhole(s: string, w: string)
    requires |w| > 0 && Joined(s, w)
    ensures Split(s, w) == [s]
  {
    var q := FirstSeparator(s, w, 0);
    assert !SeparatorAt(s, w, q);
  }

  lemma LiteralsAreWordFree(e: string)
    requires e == "" || (|e| == 4 && Reads(e, "true", 0)) || (|e| == 5 && Reads(e, "false", 0))
    ensures !Stuck(e) && !Reads(e, "not ", 0)
  {
    if e != "" {
      var w := if |e| == 4 then "true" else "false";
      forall i | 0 <= i < |e| ensures !WordAt(e, "or", i) && !WordAt(e, "and", i) {
        ReadsChar(e, "or", i, 0);
        ReadsChar(e, "and", i, 0);
        ReadsChar(e, "and", i, 1);
        ReadsChar(e, w, 0, i);
        if i + 1 < |e| { ReadsChar(e, w, 0, i + 1); }
      }
      ReadsChar(e, "not ", 0, 0);
      ReadsChar(e, w, 0, 0);
    }
  }

  /** A piece of a text without separators is without them too. */
  lemma PieceIsJoined(s: string, w: string, lo: nat, hi: nat)
    requires |w| > 0 && lo <= hi <= |s| && Joined(s, w)
    ensures Joined(s[lo..hi], w)
  {
    forall i ensures !SeparatorAt(s[lo..hi], w, i) {
      if SeparatorAt(s[lo..hi], w, i) { assert SeparatorAt(s, w, lo + i); }
    }
  }

  lemma StripStaysJoined(s: string, w: string)
    requires |w| > 0 && Joined(s, w)
    ensures Joined(Strip(s), w)
  {
    var l, h := StripBounds(s);
    PieceIsJoined(s, w, l, h);
  }

  /** The two pieces around the first separator. */
  lemma SplitPieces(s: string, w: string)
    requires |w| > 0 && FirstSeparator(s, w, 0) != -1
    ensures var q := FirstSeparator(s, w, 0);
      && |TrimRight(s[..q])| < q && TrimRight(s[..q]) == s[0..|TrimRight(s[..q])|]
      && |TrimLeft(s[q + |w|..])| < |s|
      && TrimLeft(s[q + |w|..]) == s[|s| - |TrimLeft(s[q + |w|..])|..|s|]
  {
    var q := FirstSeparator(s, w, 0);
    TrimLeftStarts(s[q + |w|..]);
    TrimRightEnds(s[..q]);
    assert IsSpace(s[..q][q - 1]);
  }

  /** No part of a split can be split again on the same word, nor on one the whole
      could not be split on. */
  lemma {:induction false} PartsAreJoined(s: string, w: string, v: string)
    requires |w| > 0 && |v| > 0 && (v == w || Joined(s, v))
    ensures forall k | 0 <= k < |Split(s, w)| :: Joined(Split(s, w)[k], v)
    decreases |s|
  {
    var q := FirstSeparator(s, w, 0);
    if q == -1 {
      assert v == w ==> Joined(s, v);
    } else {
      SplitPieces(s, w);
      var left, right := TrimRight(s[..q]), TrimLeft(s[q + |w|..]);
      if v != w {
        PieceIsJoined(s, v, 0, |left|);
        PieceIsJoined(s, v, |s| - |right|, |s|);
      } else {
        forall i ensures !SeparatorAt(left, w, i) {
          if SeparatorAt(left, w, i) { assert SeparatorAt(s, w, i); }
        }
      }
      PartsAreJoined(right, w, v);
    }
  }

  /** An operator word that cannot be split on sends the evaluator round for ever. */
  lemma {:induction false} StuckOverflows(expr: string, leaf: string -> bool, depth: nat)
    requires HasWord(Strip(expr), "or") || HasWord(Strip(expr), "and")
    requires Joined(Strip(expr), if HasWord(Strip(expr), "or") then "or" else "and")
    ensures Evaluate(expr, leaf, depth) == Overflow
    decreases depth
  {
    var e := Strip(expr);
    StripTight(expr);
    var w := if HasWord(e, "or") then "or" else "and";
    NoSeparatorIsWhole(e, w);
    if depth > 0 {
      StuckOverflows(e, leaf, depth - 1);
      if e == "" || (|e| == 4 && Reads(e, "true", 0)) || (|e| == 5 && Reads(e, "false", 0)) {
        LiteralsAreWordFree(e);
        assert false;
      }
    }
  }

  lemma {:induction false} LiteralMeans(p: string, leaf: string -> bool, depth: nat)
    requires depth > |p| && Joined(Strip(p), "or") && Joined(Strip(p), "and")
    ensures Evaluate(p, leaf, depth) == LiteralValue(ParseLiteral(Strip(p)), leaf)
    decreases |p|
  {
    hide Split, HasWord, TrimLeft, TrimRight;
    var e := Strip(p);
    StripTight(p);
    if e == "" || (|e| == 4 && Reads(e, "true", 0)) || (|e| == 5 && Reads(e, "false", 0)) {
      LiteralsAreWordFree(e);
    } else if Stuck(e) {
      StuckOverflows(p, leaf, depth);
    } else if Reads(e, "not ", 0) {
      PieceIsJoined(e, "or", 4, |e|);
      PieceIsJoined(e, "and", 4, |e|);
      assert e[4..|e|] == e[4..];
      StripStaysJoined(e[4..], "or");
      StripStaysJoined(e[4..], "and");
      LiteralMeans(e[4..], leaf, depth - 1);
    }
  }

  lemma {:induction false} AllMeans(parts: seq<string>, leaf: string -> bool, depth: nat)
    requires forall i | 0 <= i < |parts| :: depth > |parts[i]| && Joined(parts[i], "or") && Joined(parts[i], "and")
    ensures EvaluateAll(parts, leaf, depth) == AllValue(ParseLiterals(parts), leaf)
  {
    hide Evaluate, ParseLiteral, Joined, LiteralValue;
    if parts != [] {
      StripStaysJoined(parts[0], "or");
      StripStaysJoined(parts[0], "and");
      LiteralMeans(parts[0], leaf, depth);
      AllMeans(parts[1..], leaf, depth);
    }
  }

  lemma AndMeans(p: string, leaf: string -> bool, depth: nat)
    requires depth > |p| && Joined(Strip(p), "or")
    ensures Evaluate(p, leaf, depth) == AllValue(ParseAnd(Strip(p)), leaf)
  {
    hide Split, HasWord, TrimLeft, TrimRight, EvaluateAll;
    var e := Strip(p);
    StripTight(p);
    if e == "" || (|e| == 4 && Reads(e, "true", 0)) || (|e| == 5 && Reads(e, "false", 0)) {
      LiteralsAreWordFree(e);
    }
    if HasWord(e, "or") {
      StuckOverflows(p, leaf, depth);
      assert LiteralValue(Literal(0, e), leaf) == Overflow;
    } else if |Split(e, "and")| > 1 {
      forall i | 0 <= i < |Split(e, "and")| ensures Joined(Split(e, "and")[i], "or") && Joined(Split(e, "and")[i], "and") {
        PartsAreJoined(e, "and", "or");
        PartsAreJoined(e, "and", "and");
      }
      assert HasWord(e, "and") by {
        if !HasWord(e, "and") { WordFreeIsWhole(e, "and"); }
      }
      AllMeans(Split(e, "and"), leaf, depth - 1);
    } else {
      LiteralMeans(p, leaf, depth);
      StripTight(e);
      assert [e][1..] == [];
      assert ParseLiterals([e]) == [ParseLiteral(e)];
      assert [ParseLiteral(e)][1..] == [];
    }
  }

  lemma {:induction false} AnyMeans(parts: seq<string>, leaf: string -> bool, depth: nat)
    requires forall i | 0 <= i < |parts| :: depth > |parts[i]| && Joined(parts[i], "or")
    ensures EvaluateAny(parts, leaf, depth) == Value(ParseAnds(parts), leaf)
  {
    hide Evaluate, ParseAnd, Joined, AllValue;
    if parts != [] {
      StripStaysJoined(parts[0], "or");
      AndMeans(parts[0], leaf, depth);
      AnyMeans(parts[1..], leaf, depth);
    }
  }

  /** Whatever the string, a stack deeper than it is long gives the meaning of the
      formula it reads as: "or" binds weakest, "not" strongest. */
  lemma EvaluateMeansParse(expr: string, leaf: string -> bool, depth: nat)
    requires depth > |expr|
    ensures Evaluate(expr, leaf, depth) == Value(Parse(expr), leaf)
  {
    hide Split, HasWord, TrimLeft, TrimRight, EvaluateAny, ParseAnd;
    var e := Strip(expr);
    StripTight(expr);
    if |Split(e, "or")| > 1 {
      PartsAreJoined(e, "or", "or");
      assert HasWord(e, "or") by {
        if !HasWord(e, "or") { WordFreeIsWhole(e, "or"); }
      }
      if e == "" || (|e| == 4 && Reads(e, "true", 0)) || (|e| == 5 && Reads(e, "false", 0)) {
        LiteralsAreWordFree(e);
        assert false;
      }
      AnyMeans(Split(e, "or"), leaf, depth - 1);
    } else {
      assert Joined(e, "or");
      AndMeans(expr, leaf, depth);
      StripTight(e);
      assert [e][1..] == [];
      assert ParseAnds([e]) == [ParseAnd(e)];
      assert [ParseAnd(e)][1..] == [];
    }
  }

  // ---- printing ----

  function Join(parts: seq<string>, w: string): string
    requires parts != []
  {
    if |parts| == 1 then parts[0] else parts[0] + " " + (w + " " + Join(parts[1..], w))
  }

  function PrintLiteral(l: Literal): string
    decreases l.nots
  {
    if l.nots == 0 then l.atom else "not" + " " + PrintLiteral(Literal(l.nots - 1, l.atom))
  }

  function PrintLiterals(ls: seq<Literal>): (r: seq<string>)
    ensures |r| == |ls|
  {
    if ls == [] then [] else [PrintLiteral(ls[0])] + PrintLiterals(ls[1..])
  }

  function PrintAnds(f: Formula): (r: seq<string>)
    requires forall i | 0 <= i < |f| :: f[i] != []
    ensures |r| == |f|
  {
    if f == [] then [] else [Join(PrintLiterals(f[0]), "and")] + PrintAnds(f[1..])
  }

  predicate GoodAtom(a: string) {
    a != "" && Tight(a) && !Stuck(a) && !Reads(a, "not ", 0)
  }

  predicate Good(f: Formula) {
    f != [] && forall i | 0 <= i < |f| :: f[i] != [] && forall j | 0 <= j < |f[i]| :: GoodAtom(f[i][j].atom)
  }

  function Print(f: Formula): string
    requires Good(f)
  {
    Join(PrintAnds(f), "or")
  }

  /** A printable operand: it starts and ends with something, and holds no word w. */
  predicate Operand(s: string, w: string) {
    s != "" && Tight(s) && !HasWord(s, w)
  }

  /** A word of two texts side by side is a word of one of them. */
  lemma WordInPair(x: string, y: string, w: string)
    requires Operator(w)
    ensures HasWord(x + " " + y, w) ==> HasWord(x, w) || HasWord(y, w)
  {
    var s := x + " " + y;
    Straddles(x, y, w);
    forall i | 0 <= i < |s| && WordAt(s, w, i) ensures HasWord(x, w) || HasWord(y, w) {
      if i + |w| <= |x| {
        assert s[i..i + |w|] == x[i..i + |w|];
        ReadsSame(s, x, w, i, i);
        assert WordAt(x, w, i);
      } else {
        var j := i - |x| - 1;
        assert s[i..i + |w|] == y[j..j + |w|];
        ReadsSame(s, y, w, i, j);
        assert WordAt(y, w, j);
      }
    }
  }

  /** No operator word lies across a space. */
  lemma Straddles(x: string, y: string, w: string)
    requires Operator(w)
    ensures forall i | |x| - |w| < i <= |x| :: !Reads(x + " " + y, w, i)
  {
    var s := x + " " + y;
    forall i | |x| - |w| < i <= |x| ensures !Reads(s, w, i) {
      ReadsChar(s, w, i, |x| - i);
      assert s[|x|] == ' ';
    }
  }

  lemma {:induction false} JoinIsOperand(parts: seq<string>, w: string, v: string)
    requires parts != [] && Operator(w) && Operator(v) && v != w
    requires forall i | 0 <= i < |parts| :: Operand(parts[i], v)
    ensures Operand(Join(parts, w), v)
  {
    if |parts| > 1 {
      var rest := Join(parts[1..], w);
      JoinIsOperand(parts[1..], w, v);
      WordInPair(w, rest, v);
      WordInPair(parts[0], w + " " + rest, v);
      OperatorsDiffer(w, v);
    }
  }

  lemma OperatorsDiffer(w: string, v: string)
    requires Operator(w) && Operator(v) && v != w
    ensures !HasWord(w, v)
  {
    forall i | 0 <= i < |w| ensures !WordAt(w, v, i) {
      ReadsChar(w, v, i, 0);
      ReadsChar(w, v, i, 1);
    }
  }

  /** The first separator of a joined text is the one that joined it. */
  lemma FirstOfJoin(x: string, w: string, rest: string)
    requires Operator(w) && Operand(x, w)
    ensures forall i | 0 <= i <= |x| :: !SeparatorAt(x + " " + (w + " " + rest), w, i)
  {
    var tail := w + " " + rest;
    var s := x + " " + tail;
    Straddles(x, tail, w);
    forall i | 0 <= i <= |x| ensures !SeparatorAt(s, w, i) {
      if i + |w| <= |x| {
        assert s[i..i + |w|] == x[i..i + |w|];
        ReadsSame(s, x, w, i, i);
        assert SeparatorAt(s, w, i) ==> WordAt(x, w, i);
      }
    }
  }

  lemma JoinSeparates(x: string, w: string, rest: string)
    requires Operator(w) && rest != ""
    ensures SeparatorAt(x + " " + (w + " " + rest), w, |x| + 1)
  {
    var s, q := x + " " + (w + " " + rest), |x| + 1;
    assert s[q..q + |w|] == w;
    assert Reads(w, w, 0) by { assert forall k | 0 <= k < |w| :: LowerChar(w[k]) == w[k]; }
    ReadsSame(s, w, w, q, 0);
    assert s[q - 1] == ' ' && s[q + |w|] == ' ';
  }

  lemma TrimPadding(x: string)
    requires x != ""
    ensures !IsSpace(x[|x| - 1]) ==> TrimRight(x + " ") == x
    ensures !IsSpace(x[0]) ==> TrimLeft(" " + x) == x
  {
    assert (x + " ")[..|x|] == x;
    assert (" " + x)[1..] == x;
  }

  lemma SplitAt(s: string, w: string, q: nat)
    requires |w| > 0 && SeparatorAt(s, w, q) && forall i | 0 <= i < q :: !SeparatorAt(s, w, i)
    ensures Split(s, w) == [TrimRight(s[..q])] + Split(TrimLeft(s[q + |w|..]), w)
  {
    hide SeparatorAt, TrimLeft, TrimRight;
    assert FirstSeparator(s, w, 0) == q;
  }

  lemma JoinPieces(x: string, w: string, rest: string)
    ensures var s := x + " " + (w + " " + rest);
      s[..|x| + 1] == x + " " && s[|x| + 1 + |w|..] == " " + rest
  {
  }

  lemma SplitPair(x: string, w: string, rest: string)
    requires Operator(w) && Operand(x, w) && rest != "" && !IsSpace(rest[0])
    ensures Split(x + " " + (w + " " + rest), w) == [x] + Split(rest, w)
  {
    hide HasWord, SeparatorAt, TrimLeft, TrimRight, Reads, Split, IsSpace;
    var s, q := x + " " + (w + " " + rest), |x| + 1;
    FirstOfJoin(x, w, rest);
    JoinSeparates(x, w, rest);
    SplitAt(s, w, q);
    JoinPieces(x, w, rest);
    TrimPadding(x);
    TrimPadding(rest);
  }

  /** Splitting undoes joining. */
  lemma {:induction false} SplitJoin(parts: seq<string>, w: string)
    requires parts != [] && Operator(w) && forall i | 0 <= i < |parts| :: Operand(parts[i], w)
    ensures Split(Join(parts, w), w) == parts && Join(parts, w) != "" && Tight(Join(parts, w))
  {
    hide HasWord, FirstSeparator, Split, Join, IsSpace;
    JoinStep(parts, w);
    if |parts| == 1 {
      WordFreeIsWhole(parts[0], w);
    } else {
      var rest := Join(parts[1..], w);
      SplitJoin(parts[1..], w);
      SplitPair(parts[0], w, rest);
      TightPair(parts[0], " " + (w + " "), rest);
      assert parts[0] + " " + (w + " " + rest) == parts[0] + (" " + (w + " ")) + rest;
    }
  }

  lemma JoinStep(parts: seq<string>, w: string)
    requires parts != []
    ensures Join(parts, w) == if |parts| == 1 then parts[0] else parts[0] + " " + (w + " " + Join(parts[1..], w))
  {
  }

  lemma TightPair(x: string, gap: string, y: string)
    requires x != "" && y != "" && Tight(x) && Tight(y)
    ensures Tight(x + gap + y) && x + gap + y != ""
  {
    hide IsSpace;
    var s := x + gap + y;
    assert s[0] == x[0] && s[|s| - 1] == y[|y| - 1];
  }

  lemma {:induction false} ParsePrintLiteral(l: Literal)
    requires GoodAtom(l.atom)
    ensures var s := PrintLiteral(l); Operand(s, "or") && Operand(s, "and") && ParseLiteral(s) == l
    decreases l.nots
  {
    if l.nots > 0 {
      var less := Literal(l.nots - 1, l.atom);
      ParsePrintLiteral(less);
      var s, t := PrintLiteral(l), PrintLiteral(less);
      NotIsOperand();
      WordInPair("not", t, "or");
      WordInPair("not", t, "and");
      assert s == "not" + " " + t;
      assert s[4..] == t;
      StripTight(t);
      assert s[0..4] == "not ";
      assert Reads("not ", "not ", 0);
      ReadsSame(s, "not ", "not ", 0, 0);
    }
  }

  lemma NotIsOperand()
    ensures !HasWord("not", "or") && !HasWord("not", "and")
  {
    forall i | 0 <= i < 3 ensures !WordAt("not", "or", i) && !WordAt("not", "and", i) {
      ReadsChar("not", "or", i, 0);
      ReadsChar("not", "or", i, 1);
      ReadsChar("not", "and", i, 0);
    }
  }

  lemma {:induction false} ParsePrintLiterals(ls: seq<Literal>)
    requires forall j | 0 <= j < |ls| :: GoodAtom(ls[j].atom)
    ensures ParseLiterals(PrintLiterals(ls)) == ls
    ensures forall j | 0 <= j < |ls| :: Operand(PrintLiterals(ls)[j], "or") && Operand(PrintLiterals(ls)[j], "and")
  {
    hide ParseLiteral, PrintLiteral, HasWord, GoodAtom;
    if ls != [] {
      ParsePrintLiteral(ls[0]);
      StripTight(PrintLiteral(ls[0]));
      ParsePrintLiterals(ls[1..]);
      assert PrintLiterals(ls)[1..] == PrintLiterals(ls[1..]);
    }
  }

  lemma ParsePrintAnd(ls: seq<Literal>)
    requires ls != [] && forall j | 0 <= j < |ls| :: GoodAtom(ls[j].atom)
    ensures var s := Join(PrintLiterals(ls), "and"); Operand(s, "or") && ParseAnd(s) == ls
  {
    hide HasWord, GoodAtom, PrintLiterals, ParseLiterals, Split, Join;
    ParsePrintLiterals(ls);
    SplitJoin(PrintLiterals(ls), "and");
    JoinIsOperand(PrintLiterals(ls), "and", "or");
  }

  lemma {:induction false} ParsePrintAnds(f: Formula)
    requires forall i | 0 <= i < |f| :: f[i] != [] && forall j | 0 <= j < |f[i]| :: GoodAtom(f[i][j].atom)
    ensures ParseAnds(PrintAnds(f)) == f && forall i | 0 <= i < |f| :: Operand(PrintAnds(f)[i], "or")
  {
    hide HasWord, GoodAtom, PrintLiterals, ParseAnd, Join;
    if f != [] {
      ParsePrintAnd(f[0]);
      StripTight(Join(PrintLiterals(f[0]), "and"));
      ParsePrintAnds(f[1..]);
      assert PrintAnds(f)[1..] == PrintAnds(f[1..]);
    }
  }

  /** Printing a formula and reading it back gives the formula. */
  lemma ParsePrint(f: Formula)
    requires Good(f)
    ensures Parse(Print(f)) == f
  {
    hide HasWord, GoodAtom, PrintAnds, ParseAnds, Split, Join;
    ParsePrintAnds(f);
    SplitJoin(PrintAnds(f), "or");
    StripTight(Print(f));
  }

  // ---- the standard meaning ----

  predicate AtomHolds(a: string, leaf: string -> bool) {
    if |a| == 4 && Reads(a, "true", 0) then true
    else if |a| == 5 && Reads(a, "false", 0) then false
    else leaf(a)
  }

  predicate LiteralHolds(l: Literal, leaf: string -> bool) {
    AtomHolds(l.atom, leaf) == (l.nots % 2 == 0)
  }

  predicate AllHold(ls: seq<Literal>, leaf: string -> bool) {
    forall j | 0 <= j < |ls| :: LiteralHolds(ls[j], leaf)
  }

  predicate Holds(f: Formula, leaf: string -> bool) {
    exists i | 0 <= i < |f| :: AllHold(f[i], leaf)
  }

  lemma {:induction false} LiteralStandard(l: Literal, leaf: string -> bool)
    requires GoodAtom(l.atom)
    ensures LiteralValue(l, leaf) == if LiteralHolds(l, leaf) then True else False
    decreases l.nots
  {
    if l.nots > 0 { LiteralStandard(Literal(l.nots - 1, l.atom), leaf); }
  }

  lemma {:induction false} AllStandard(ls: seq<Literal>, leaf: string -> bool)
    requires forall j | 0 <= j < |ls| :: GoodAtom(ls[j].atom)
    ensures AllValue(ls, leaf) == if AllHold(ls, leaf) then True else False
  {
    hide GoodAtom, LiteralHolds, LiteralValue;
    if ls != [] {
      LiteralStandard(ls[0], leaf);
      AllStandard(ls[1..], leaf);
    }
  }

  lemma {:induction false} ValueStandard(f: Formula, leaf: string -> bool)
    requires forall i | 0 <= i < |f| :: f[i] != [] && forall j | 0 <= j < |f[i]| :: GoodAtom(f[i][j].atom)
    ensures Value(f, leaf) == if Holds(f, leaf) then True else False
  {
    hide GoodAtom, AllHold, AllValue;
    if f != [] {
      AllStandard(f[0], leaf);
      ValueStandard(f[1..], leaf);
      if Holds(f, leaf) && !AllHold(f[0], leaf) {
        var i :| 0 <= i < |f| && AllHold(f[i], leaf);
        assert f[1..][i - 1] == f[i];
      }
      if Holds(f[1..], leaf) {
        var i :| 0 <= i < |f[1..]| && AllHold(f[1..][i], leaf);
        assert f[i + 1] == f[1..][i];
      }
    }
  }

  /** A printed formula is evaluated, and to its standard meaning, whatever the atoms
      answer. */
  lemma PrintedMeans(f: Formula, leaf: string -> bool, depth: nat)
    requires Good(f) && depth > |Print(f)|
    ensures Evaluate(Print(f), leaf, depth) == if Holds(f, leaf) then True else False
  {
    hide Evaluate, Value, Holds, Print, Parse;
    EvaluateMeansParse(Print(f), leaf, depth);
    ParsePrint(f);
    ValueStandard(f, leaf);
  }

  // ---- when the evaluation never ends ----

  /** Evaluation comes to an atom with a stuck operator word: every alternative before
      it is false, and every operand before it in its own alternative is true. */
  ghost predicate ReachesStuck(f: Formula, leaf: string -> bool) {
    exists i :: 0 <= i < |f| && StuckIn(f[i], leaf) && forall k | 0 <= k < i :: AllValue(f[k], leaf) == False
  }

  ghost predicate StuckIn(ls: seq<Literal>, leaf: string -> bool) {
    exists j :: 0 <= j < |ls| && Stuck(ls[j].atom) && forall k | 0 <= k < j :: LiteralValue(ls[k], leaf) == True
  }

  lemma {:induction false} LiteralOverflows(l: Literal, leaf: string -> bool)
    ensures LiteralValue(l, leaf) == Overflow <==> Stuck(l.atom)
    decreases l.nots
  {
    if l.nots > 0 {
      LiteralOverflows(Literal(l.nots - 1, l.atom), leaf);
    } else if l.atom == "" || (|l.atom| == 4 && Reads(l.atom, "true", 0)) || (|l.atom| == 5 && Reads(l.atom, "false", 0)) {
      LiteralsAreWordFree(l.atom);
    }
  }

  lemma {:induction false} AllOverflows(ls: seq<Literal>, leaf: string -> bool)
    ensures AllValue(ls, leaf) == Overflow <==> StuckIn(ls, leaf)
  {
    hide Stuck, LiteralValue;
    if ls != [] {
      LiteralOverflows(ls[0], leaf);
      AllOverflows(ls[1..], leaf);
      if LiteralValue(ls[0], leaf) == True && StuckIn(ls[1..], leaf) {
        var j :| 0 <= j < |ls[1..]| && Stuck(ls[1..][j].atom) && forall k | 0 <= k < j :: LiteralValue(ls[1..][k], leaf) == True;
        forall k | 0 <= k < j + 1 ensures LiteralValue(ls[k], leaf) == True {
          if k > 0 { assert ls[k] == ls[1..][k - 1]; }
        }
        assert ls[j + 1] == ls[1..][j];
      }
    }
  }

  lemma {:induction false} ValueOverflows(f: Formula, leaf: string -> bool)
    ensures Value(f, leaf) == Overflow <==> ReachesStuck(f, leaf)
  {
    hide StuckIn, AllValue;
    if f != [] {
      AllOverflows(f[0], leaf);
      ValueOverflows(f[1..], leaf);
      if AllValue(f[0], leaf) == False && ReachesStuck(f[1..], leaf) {
        var i :| 0 <= i < |f[1..]| && StuckIn(f[1..][i], leaf) && forall k | 0 <= k < i :: AllValue(f[1..][k], leaf) == False;
        forall k | 0 <= k < i + 1 ensures AllValue(f[k], leaf) == False {
          if k > 0 { assert f[k] == f[1..][k - 1]; }
        }
        assert f[i + 1] == f[1..][i];
      }
    }
  }

  /** No stack is deep enough for an expression exactly when it reaches an atom with a
      stuck "or" or "and". */
  lemma NeverEndsIff(expr: string, leaf: string -> bool)
    ensures (forall depth: nat :: Evaluate(expr, leaf, depth) == Overflow) <==> ReachesStuck(Parse(expr), leaf)
  {
    hide Evaluate, Parse, Value, ReachesStuck;
    ValueOverflows(Parse(expr), leaf);
    EvaluateMeansParse(expr, leaf, |expr| + 1);
    forall depth: nat ensures ReachesStuck(Parse(expr), leaf) ==> Evaluate(expr, leaf, depth) == Overflow {
      if depth > |expr| {
        EvaluateMeansParse(expr, leaf, depth);
      } else {
        DeeperAgrees(expr, leaf, depth, |expr| + 1);
      }
    }
  }

  /** More stack never changes a verdict. */
  lemma {:induction false} DeeperAgrees(expr: string, leaf: string -> bool, depth: nat, more: nat)
    requires depth <= more
    ensures Evaluate(expr, leaf, depth) == Overflow || Evaluate(expr, leaf, more) == Evaluate(expr, leaf, depth)
    decreases depth, 0
  {
    hide HasWord, Split, Strip, Reads;
    var e := Strip(expr);
    if depth > 0 {
      if HasWord(e, "or") {
        DeeperAny(Split(e, "or"), leaf, depth - 1, more - 1);
      } else if HasWord(e, "and") {
        DeeperAll(Split(e, "and"), leaf, depth - 1, more - 1);
      } else if Reads(e, "not ", 0) {
        ReadsFits(e, "not ");
        DeeperAgrees(e[4..], leaf, depth - 1, more - 1);
      }
    }
  }

  lemma ReadsFits(e: string, w: string)
    requires Reads(e, w, 0)
    ensures |w| <= |e|
  {
  }

  lemma {:induction false} DeeperAny(parts: seq<string>, leaf: string -> bool, depth: nat, more: nat)
    requires depth <= more
    ensures EvaluateAny(parts, leaf, depth) == Overflow || EvaluateAny(parts, leaf, more) == EvaluateAny(parts, leaf, depth)
    decreases depth, |parts| + 1
  {
    hide Evaluate;
    if parts != [] {
      DeeperAgrees(parts[0], leaf, depth, more);
      DeeperAny(parts[1..], leaf, depth, more);
    }
  }

  lemma {:induction false} DeeperAll(parts: seq<string>, leaf: string -> bool, depth: nat, more: nat)
    requires depth <= more
    ensures EvaluateAll(parts, leaf, depth) == Overflow || EvaluateAll(parts, leaf, more) == EvaluateAll(parts, leaf, depth)
    decreases depth, |parts| + 1
  {
    hide Evaluate;
    if parts != [] {
      DeeperAgrees(parts[0], leaf, depth, more);
      DeeperAll(parts[1..], leaf, depth, more);
    }
  }
}
