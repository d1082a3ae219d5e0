/** A printed expression parses back to itself, and a parsed expression parses the
    same from its own tokens alone, also from the slice of text kept for CHECK. */
module SqlRoundTrip {
  import opened SqlTokens
  import opened SqlOperands
  import opened SqlOperandTrip
  import opened SqlParser

  // ---- Printed expressions parse back ----

  lemma {:induction false} ItemsRoundTrip(items: seq<Operand>, rest: Toks)
    requires items != [] && AllItems(items)
    ensures ParseItems(PrintItems(items) + rest) == Some((items, rest))
  {
    hide ParseItems, PrintOperand;
    LowerWords();
    if |items| == 1 {
      LastItem(items[0], rest);
      assert items == [items[0]];
    } else {
      ItemsRoundTrip(items[1..], rest);
      var others := PrintItems(items[1..]) + rest;
      NextItem(items[0], others);
      assert PrintItems(items) + rest == PrintOperand(items[0]) + Word(Symbol, ",") + others;
      assert items == [items[0]] + items[1..];
    }
  }

  lemma {:induction false} LastItem(item: Operand, rest: Toks)
    requires IsItem(item)
    ensures ParseItems(PrintOperand(item) + Word(Symbol, ")") + rest) == Some(([item], rest))
  {
    var ts := PrintOperand(item) + Word(Symbol, ")") + rest;
    LowerWords();
    assert ItemOf(ts[0]) == item && ts[1..][0] == Tok(Symbol, ")") && ts[2..] == rest;
  }

  lemma {:induction false} NextItem(item: Operand, others: Toks)
    requires IsItem(item) && ParseItems(others).Some?
    ensures ParseItems(PrintOperand(item) + Word(Symbol, ",") + others) ==
            Some(([item] + ParseItems(others).value.0, ParseItems(others).value.1))
  {
    var ts := PrintOperand(item) + Word(Symbol, ",") + others;
    LowerWords();
    assert ItemOf(ts[0]) == item && ts[1..][0] == Tok(Symbol, ",") && ts[2..] == others;
  }

  /** What follows the left operand of a printed comparison. */
  function PrintTail(e: Expr): Toks
    requires IsWellformed(e) && !e.And? && !e.Or?
  {
    match e
    case IsNull(_, negated) => Word(Keyword, "is") + PrintNot(negated) + Word(Keyword, "null")
    case InList(_, negated, items) => PrintNot(negated) + Word(Keyword, "in") + Word(Symbol, "(") + PrintItems(items)
    case Compare(op, _, b) => PrintOp(op) + PrintOperand(b)
  }

  function LeftOf(e: Expr): Operand
    requires !e.And? && !e.Or?
  {
    if e.Compare? then e.left else e.operand
  }

  lemma {:induction false} IsNullRoundTrip(o: Operand, negated: bool, rest: Toks)
    requires IsOperand(o)
    ensures ParseTail(o, PrintTail(IsNull(o, negated)) + rest) == Some((IsNull(o, negated), rest))
  {
    var ts := PrintTail(IsNull(o, negated)) + rest;
    LowerWords();
    assert ts[0] == Tok(Keyword, "is");
    if negated {
      assert ts[1..][0] == Tok(Keyword, "not") && ts[2..][0] == Tok(Keyword, "null") && ts[2..][1..] == rest;
    } else {
      assert ts[1..][0] == Tok(Keyword, "null") && ts[1..][1..] == rest;
    }
  }

  lemma {:induction false} ListRoundTrip(o: Operand, negated: bool, items: seq<Operand>, rest: Toks)
    requires items != [] && AllItems(items)
    ensures ParseIn(o, negated, Word(Symbol, "(") + PrintItems(items) + rest) == Some((InList(o, negated, items), rest))
  {
    var ts := Word(Symbol, "(") + PrintItems(items) + rest;
    LowerWords();
    ItemsRoundTrip(items, rest);
    assert ts[1..] == PrintItems(items) + rest;
    assert !ts[1..][0].kind.Keyword?;
  }

  lemma {:induction false} InRoundTrip(o: Operand, negated: bool, items: seq<Operand>, rest: Toks)
    requires IsOperand(o) && items != [] && AllItems(items)
    ensures ParseTail(o, PrintTail(InList(o, negated, items)) + rest) == Some((InList(o, negated, items), rest))
  {
    var ts := PrintTail(InList(o, negated, items)) + rest;
    var list := Word(Symbol, "(") + PrintItems(items) + rest;
    hide ParseIn, PrintItems;
    LowerWords();
    ListRoundTrip(o, negated, items, rest);
    if negated {
      assert ts[0] == Tok(Keyword, "not") && ts[1..][0] == Tok(Keyword, "in") && ts[2..] == list;
    } else {
      assert ts[0] == Tok(Keyword, "in") && ts[1..] == list;
    }
  }

  lemma {:induction false} CompareRoundTrip(o: Operand, op: string, b: Operand, rest: Toks)
    requires IsWellformed(Compare(op, o, b)) && Ends(rest)
    ensures ParseTail(o, PrintTail(Compare(op, o, b)) + rest) == Some((Compare(op, o, b), rest))
  {
    var ts := PrintTail(Compare(op, o, b)) + rest;
    OperandStarts(b, rest);
    OperandTrip(b, rest);
    assert ts[0] == PrintOp(op)[0] && ts[1..] == PrintOperand(b) + rest;
  }

  lemma {:induction false} TailRoundTrip(e: Expr, rest: Toks)
    requires IsWellformed(e) && !e.And? && !e.Or? && Ends(rest)
    ensures ParseTail(LeftOf(e), PrintTail(e) + rest) == Some((e, rest))
    ensures EndsOperand(LeftOf(e), PrintTail(e) + rest)
  {
    TailStarts(e, rest);
    match e
    case IsNull(o, negated) => IsNullRoundTrip(o, negated, rest);
    case InList(o, negated, items) => InRoundTrip(o, negated, items, rest);
    case Compare(op, a, b) => CompareRoundTrip(a, op, b, rest);
  }

  lemma {:induction false} TailStarts(e: Expr, rest: Toks)
    requires IsWellformed(e) && !e.And? && !e.Or?
    ensures EndsOperand(LeftOf(e), PrintTail(e) + rest)
  {
    var ts := PrintTail(e) + rest;
    LowerWords();
    if e.Compare? {
      assert ts[0] == PrintOp(e.op)[0];
    } else {
      assert ts[0] in [Tok(Keyword, "is"), Tok(Keyword, "not"), Tok(Keyword, "in")];
    }
  }

  lemma {:induction false} LeafRoundTrip(e: Expr, rest: Toks)
    requires IsWellformed(e) && !e.And? && !e.Or? && Ends(rest)
    ensures ParseComparison(Print(e, 2) + rest) == Some((e, rest))
  {
    TailRoundTrip(e, rest);
    LeafIsOperandAndTail(e);
    Associate(PrintOperand(LeftOf(e)), PrintTail(e), rest);
    OperandFirst(LeftOf(e), PrintTail(e) + rest);
  }

  lemma {:induction false} OperandFirst(o: Operand, tail: Toks)
    requires IsOperand(o) && EndsOperand(o, tail)
    ensures ParseComparison(PrintOperand(o) + tail) == ParseTail(o, tail)
  {
    OperandStarts(o, tail);
    OperandTrip(o, tail);
  }

  lemma {:induction false} LeafIsOperandAndTail(e: Expr)
    requires IsWellformed(e) && !e.And? && !e.Or?
    ensures Print(e, 2) == PrintOperand(LeftOf(e)) + PrintTail(e)
  {
    var first := PrintOperand(LeftOf(e));
    match e
    case IsNull(_, negated) =>
      Associate(first + Word(Keyword, "is"), PrintNot(negated), Word(Keyword, "null"));
      Associate(first, Word(Keyword, "is"), PrintNot(negated) + Word(Keyword, "null"));
      Associate(Word(Keyword, "is"), PrintNot(negated), Word(Keyword, "null"));
    case InList(_, negated, items) => ListIsOperandAndTail(first, PrintNot(negated), Word(Keyword, "in"), Word(Symbol, "("), PrintItems(items));
    case Compare(op, _, b) => Associate(first, PrintOp(op), PrintOperand(b));
  }

  lemma {:induction false} ListIsOperandAndTail(a: Toks, b: Toks, c: Toks, d: Toks, e: Toks)
    ensures a + b + c + d + e == a + (b + c + d + e)
  {
    Associate(a, b, c);
    Associate(a, b + c, d);
    Associate(a, b + c + d, e);
  }

  lemma {:induction false} ExpressionStarts(e: Expr, level: nat)
    requires IsWellformed(e)
    ensures Print(e, level) != [] && !Print(e, level)[0].kind.Keyword?
    ensures PrintPlain(e) != [] && !PrintPlain(e)[0].kind.Keyword?
    decreases e
  {
    match e
    case And(_, a, _) => ExpressionStarts(a, 1);
    case Or(_, a, _) => ExpressionStarts(a, 0);
    case _ =>
      OperandStarts(LeftOf(e), []);
      LeafIsOperandAndTail(e);
  }

  lemma {:induction false} ComparisonRoundTrip(e: Expr, rest: Toks)
    requires IsWellformed(e) && Ends(rest)
    ensures ParseComparison(Print(e, 2) + rest) == Some((e, rest))
    decreases e, if e.And? then 3 else if e.Or? then 2 else 0
  {
    if !e.And? && !e.Or? {
      LeafRoundTrip(e, rest);
    } else {
      hide ParseOr, PrintPlain;
      var ts, closed := Print(e, 2) + rest, Word(Symbol, ")") + rest;
      LowerWords();
      ExpressionStarts(e, 0);
      assert ts[0] == Tok(Symbol, "(") && ts[1..] == Print(e, 0) + closed;
      assert closed[1..] == rest;
      OrRoundTrip(e, closed);
    }
  }

  lemma {:induction false} AndRoundTrip(e: Expr, rest: Toks)
    requires IsWellformed(e) && Ends(rest)
    ensures ParseAnd(Print(e, 1) + rest) == AndLoop(e, rest)
    decreases e, if e.And? then 1 else if e.Or? then 3 else 1
  {
    if e.And? {
      AndRoundTrip(e.first, Word(Keyword, e.word) + (Print(e.second, 2) + rest));
      ComparisonRoundTrip(e.second, rest);
      AndStep(e, rest);
      PrintedAnd(e, rest);
    } else {
      ComparisonRoundTrip(e, rest);
      SingleAnd(e, rest);
    }
  }

  lemma {:induction false} PrintedAnd(e: Expr, rest: Toks)
    requires IsWellformed(e) && e.And?
    ensures Print(e, 1) + rest == Print(e.first, 1) + (Word(Keyword, e.word) + (Print(e.second, 2) + rest))
  {
    Associate(Print(e.first, 1) + Word(Keyword, e.word), Print(e.second, 2), rest);
    Associate(Print(e.first, 1), Word(Keyword, e.word), Print(e.second, 2) + rest);
  }

  lemma {:induction false} SingleAnd(e: Expr, rest: Toks)
    requires IsWellformed(e) && !e.And? && ParseComparison(Print(e, 2) + rest) == Some((e, rest))
    ensures ParseAnd(Print(e, 1) + rest) == AndLoop(e, rest)
  {
    assert Print(e, 1) == Print(e, 2);
  }

  lemma {:induction false} AndStep(e: Expr, rest: Toks)
    requires IsWellformed(e) && e.And? && ParseComparison(Print(e.second, 2) + rest) == Some((e.second, rest))
    ensures AndLoop(e.first, Word(Keyword, e.word) + (Print(e.second, 2) + rest)) == AndLoop(e, rest)
  {
    var tail := Word(Keyword, e.word) + (Print(e.second, 2) + rest);
    assert tail[1..] == Print(e.second, 2) + rest;
  }

  lemma {:induction false} OrStep(e: Expr, rest: Toks)
    requires IsWellformed(e) && e.Or? && ParseAnd(Print(e.second, 1) + rest) == Some((e.second, rest))
    ensures OrLoop(e.first, Word(Keyword, e.word) + (Print(e.second, 1) + rest)) == OrLoop(e, rest)
  {
    var tail := Word(Keyword, e.word) + (Print(e.second, 1) + rest);
    assert tail[1..] == Print(e.second, 1) + rest;
  }

  lemma {:induction false} OrRoundTrip(e: Expr, rest: Toks)
    requires IsWellformed(e) && Ends(rest) && !IsAt(rest, Keyword, "and")
    ensures ParseOr(Print(e, 0) + rest) == OrLoop(e, rest)
    decreases e, if e.And? then 2 else if e.Or? then 1 else 2
  {
    if e.Or? {
      OrRoundTrip(e.first, Word(Keyword, e.word) + (Print(e.second, 1) + rest));
      AndRoundTrip(e.second, rest);
      OrStep(e, rest);
      PrintedOr(e, rest);
    } else {
      AndRoundTrip(e, rest);
      SingleOr(e, rest);
    }
  }

  lemma {:induction false} PrintedOr(e: Expr, rest: Toks)
    requires IsWellformed(e) && e.Or?
    ensures Print(e, 0) + rest == Print(e.first, 0) + (Word(Keyword, e.word) + (Print(e.second, 1) + rest))
  {
    Associate(Print(e.first, 0) + Word(Keyword, e.word), Print(e.second, 1), rest);
    Associate(Print(e.first, 0), Word(Keyword, e.word), Print(e.second, 1) + rest);
  }

  lemma {:induction false} SingleOr(e: Expr, rest: Toks)
    requires IsWellformed(e) && !e.Or? && !IsAt(rest, Keyword, "and") && ParseAnd(Print(e, 1) + rest) == AndLoop(e, rest)
    ensures ParseOr(Print(e, 0) + rest) == OrLoop(e, rest)
  {
    assert Print(e, 0) == Print(e, 1);
  }

  /** Every expression printed with parentheses only where precedence asks for them
      parses back to the same tree, and nothing is left over. */
  lemma {:induction false} PrintedParsesBack(e: Expr)
    requires IsWellformed(e)
    ensures ParseOr(Print(e, 0)) == Some((e, []))
  {
    OrRoundTrip(e, []);
    assert Print(e, 0) + [] == Print(e, 0);
  }

  // ---- Nothing behind an expression changes it ----

  lemma {:induction false} ItemsCut(ts: Toks, e: nat)
    requires ParseItems(ts).Some? && |ts| - |ParseItems(ts).value.1| <= e <= |ts|
    ensures var (items, rest) := ParseItems(ts).value;
            ParseItems(ts[..e]) == Some((items, CutRest(ts, rest, e)))
  {
    TailOfCut(ts, e, 1);
    TailOfCut(ts, e, 2);
    if IsAt(ts[1..], Symbol, ",") {
      ItemsCut(ts[2..], e - 2);
    }
  }

  lemma {:induction false} IsNullCut(left: Operand, ts: Toks, e: nat)
    requires ts != [] && ParseIsNull(left, ts).Some? && |ts| - |ParseIsNull(left, ts).value.1| <= e <= |ts|
    ensures var (x, rest) := ParseIsNull(left, ts).value;
            ts[..e] != [] && ParseIsNull(left, ts[..e]) == Some((x, CutRest(ts, rest, e)))
  {
    TailOfCut(ts, e, 1);
    TailOfCut(ts, e, 2);
    if IsAt(ts[1..], Keyword, "not") {
      TailOfCut(ts, e, 3);
      assert ts[2..][1..] == ts[3..] && ts[..e][2..][1..] == ts[..e][3..];
    } else {
      assert ts[1..][1..] == ts[2..] && ts[..e][1..][1..] == ts[..e][2..];
    }
  }

  lemma {:induction false} InCut(left: Operand, negated: bool, ts: Toks, e: nat)
    requires ParseIn(left, negated, ts).Some? && |ts| - |ParseIn(left, negated, ts).value.1| <= e <= |ts|
    ensures var (x, rest) := ParseIn(left, negated, ts).value;
            ParseIn(left, negated, ts[..e]) == Some((x, CutRest(ts, rest, e)))
  {
    TailOfCut(ts, e, 1);
    ItemsCut(ts[1..], e - 1);
  }

  lemma {:induction false} CompareCut(left: Operand, ts: Toks, e: nat)
    requires ParseCompare(left, ts).Some? && |ts| - |ParseCompare(left, ts).value.1| <= e <= |ts|
    ensures var (x, rest) := ParseCompare(left, ts).value;
            ParseCompare(left, ts[..e]) == Some((x, CutRest(ts, rest, e)))
  {
    TailOfCut(ts, e, 1);
    OperandCut(ts[1..], e - 1);
  }

  lemma {:induction false} TailCut(left: Operand, ts: Toks, e: nat)
    requires ParseTail(left, ts).Some? && |ts| - |ParseTail(left, ts).value.1| <= e <= |ts|
    ensures var (x, rest) := ParseTail(left, ts).value;
            ParseTail(left, ts[..e]) == Some((x, CutRest(ts, rest, e)))
  {
    TailOfCut(ts, e, 1);
    StartsCut(ts, e);
    if IsAt(ts, Keyword, "is") {
      IsNullCut(left, ts, e);
    } else if StartsNotIn(ts) {
      NotInTailCut(left, ts, e);
    } else if IsAt(ts, Keyword, "in") {
      InCut(left, false, ts[1..], e - 1);
    } else {
      CompareTailCut(left, ts, e);
    }
  }

  lemma {:induction false} NotInTailCut(left: Operand, ts: Toks, e: nat)
    requires StartsNotIn(ts) && !IsAt(ts, Keyword, "is")
    requires ParseIn(left, true, ts[2..]).Some? && |ts| - |ParseIn(left, true, ts[2..]).value.1| <= e <= |ts|
    ensures var (x, rest) := ParseIn(left, true, ts[2..]).value;
            ParseTail(left, ts[..e]) == Some((x, CutRest(ts, rest, e)))
  {
    StartsCut(ts, e);
    TailOfCut(ts, e, 2);
    InCut(left, true, ts[2..], e - 2);
    assert ts[..e][0] == ts[0];
  }

  lemma {:induction false} CompareTailCut(left: Operand, ts: Toks, e: nat)
    requires !IsAt(ts, Keyword, "is") && !StartsNotIn(ts) && !IsAt(ts, Keyword, "in")
    requires ParseCompare(left, ts).Some? && |ts| - |ParseCompare(left, ts).value.1| <= e <= |ts|
    ensures var (x, rest) := ParseCompare(left, ts).value;
            ParseTail(left, ts[..e]) == Some((x, CutRest(ts, rest, e)))
  {
    StartsCut(ts, e);
    CompareCut(left, ts, e);
    assert ts[..e][0] == ts[0];
  }

  /** Cut behind two tokens or more, or where they do not start, nothing starts that
      did not before. */
  lemma {:induction false} StartsCut(ts: Toks, e: nat)
    requires 0 < e <= |ts|
    ensures StartsNotIn(ts[..e]) ==> StartsNotIn(ts)
    ensures StartsNotIn(ts) && e > 1 ==> StartsNotIn(ts[..e])
  {
    TailOfCut(ts, e, 1);
  }

  lemma {:induction false} ComparisonCut(ts: Toks, e: nat)
    requires ParseComparison(ts).Some? && |ts| - |ParseComparison(ts).value.1| <= e <= |ts|
    ensures var (x, rest) := ParseComparison(ts).value;
            ParseComparison(ts[..e]) == Some((x, CutRest(ts, rest, e)))
    decreases |ts|, 1
  {
    hide ParseOperand, ParseTail, ParseOr;
    TailOfCut(ts, e, 1);
    if !StartsSelect(ts) && IsAt(ts, Symbol, "(") {
      GroupCut(ts, e);
    } else {
      var (left, rest) := ParseOperand(ts).value;
      OperandCut(ts, e);
      TailCut(left, rest, e - (|ts| - |rest|));
    }
  }

  lemma {:induction false} GroupCut(ts: Toks, e: nat)
    requires !StartsExists(ts) && !StartsSelect(ts) && IsAt(ts, Symbol, "(")
    requires ParseComparison(ts).Some? && |ts| - |ParseComparison(ts).value.1| <= e <= |ts|
    ensures var (x, rest) := ParseComparison(ts).value;
            ParseComparison(ts[..e]) == Some((x, CutRest(ts, rest, e)))
    decreases |ts|, 0
  {
    TailOfCut(ts, e, 1);
    var (inner, closed) := ParseOr(ts[1..]).value;
    var n := |ts| - |closed|;
    OrCut(ts[1..], e - 1);
    assert closed[..e - n][1..] == closed[1..][..e - n - 1];
  }

  lemma {:induction false} AndCut(ts: Toks, e: nat)
    requires ParseAnd(ts).Some? && |ts| - |ParseAnd(ts).value.1| <= e <= |ts|
    ensures var (x, rest) := ParseAnd(ts).value;
            ParseAnd(ts[..e]) == Some((x, CutRest(ts, rest, e)))
    decreases |ts|, 2
  {
    hide ParseComparison, AndLoop;
    var (left, rest) := ParseComparison(ts).value;
    ComparisonCut(ts, e);
    AndLoopCut(left, rest, e - (|ts| - |rest|));
  }

  /** Cutting the rest of the rest is cutting the whole. */
  lemma {:induction false} CutTwice(whole: Parsed<Expr>, cut: Parsed<Expr>, ts: Toks, rest: Toks, e: nat)
    requires whole.Some? && |whole.value.1| <= |rest| <= |ts| && |ts| - |whole.value.1| <= e <= |ts|
    requires cut == Some((whole.value.0, CutRest(rest, whole.value.1, e - (|ts| - |rest|))))
    ensures cut == Some((whole.value.0, CutRest(ts, whole.value.1, e)))
  {
  }

  lemma {:induction false} AndLoopCut(left: Expr, ts: Toks, e: nat)
    requires AndLoop(left, ts).Some? && |ts| - |AndLoop(left, ts).value.1| <= e <= |ts|
    ensures var (x, rest) := AndLoop(left, ts).value;
            AndLoop(left, ts[..e]) == Some((x, CutRest(ts, rest, e)))
    decreases |ts|, 3
  {
    if IsAt(ts, Keyword, "and") {
      var more, rest := AndLoopItem(left, ts, e);
      var k := e - (|ts| - |rest|);
      AndLoopCut(more, rest, k);
      CutTwice(AndLoop(more, rest), AndLoop(more, rest[..k]), ts, rest, e);
    } else {
      AndLoopStops(left, ts, e);
    }
  }

  lemma {:induction false} AndLoopStops(left: Expr, ts: Toks, e: nat)
    requires !IsAt(ts, Keyword, "and") && e <= |ts|
    ensures AndLoop(left, ts[..e]) == Some((left, ts[..e])) && AndLoop(left, ts) == Some((left, ts))
  {
  }

  /** One more operand, in the whole and in the cut. */
  lemma {:induction false} AndLoopItem(left: Expr, ts: Toks, e: nat) returns (more: Expr, rest: Toks)
    requires IsAt(ts, Keyword, "and") && AndLoop(left, ts).Some? && |ts| - |AndLoop(left, ts).value.1| <= e <= |ts|
    ensures |rest| < |ts| && |ts| - |rest| <= e && AndLoop(left, ts) == AndLoop(more, rest)
    ensures AndLoop(left, ts[..e]) == AndLoop(more, rest[..e - (|ts| - |rest|)])
    decreases |ts|, 0
  {
    var right := ParseComparison(ts[1..]).value.0;
    rest := ParseComparison(ts[1..]).value.1;
    more := And(ts[0].value, left, right);
    AndLoopOnce(left, ts, right, rest);
    ComparisonCut(ts[1..], e - 1);
    AndLoopOnceCut(left, ts, e, right, rest);
  }

  lemma {:induction false} AndLoopOnceCut(left: Expr, ts: Toks, e: nat, right: Expr, rest: Toks)
    requires IsAt(ts, Keyword, "and") && |rest| < |ts| - 1 && |ts| - |rest| <= e <= |ts|
    requires ParseComparison(ts[1..][..e - 1]) == Some((right, CutRest(ts[1..], rest, e - 1)))
    ensures AndLoop(left, ts[..e]) == AndLoop(And(ts[0].value, left, right), rest[..e - (|ts| - |rest|)])
  {
    TailOfCut(ts, e, 1);
    AndLoopOnce(left, ts[..e], right, rest[..e - (|ts| - |rest|)]);
  }

  lemma {:induction false} AndLoopOnce(left: Expr, ts: Toks, right: Expr, rest: Toks)
    requires IsAt(ts, Keyword, "and") && ParseComparison(ts[1..]) == Some((right, rest))
    ensures AndLoop(left, ts) == AndLoop(And(ts[0].value, left, right), rest)
  {
  }

  lemma {:induction false} OrCut(ts: Toks, e: nat)
    requires ParseOr(ts).Some? && |ts| - |ParseOr(ts).value.1| <= e <= |ts|
    ensures var (x, rest) := ParseOr(ts).value;
            ParseOr(ts[..e]) == Some((x, CutRest(ts, rest, e)))
    decreases |ts|, 4
  {
    hide ParseAnd, OrLoop;
    var (left, rest) := ParseAnd(ts).value;
    AndCut(ts, e);
    OrLoopCut(left, rest, e - (|ts| - |rest|));
  }

  lemma {:induction false} OrLoopCut(left: Expr, ts: Toks, e: nat)
    requires OrLoop(left, ts).Some? && |ts| - |OrLoop(left, ts).value.1| <= e <= |ts|
    ensures var (x, rest) := OrLoop(left, ts).value;
            OrLoop(left, ts[..e]) == Some((x, CutRest(ts, rest, e)))
    decreases |ts|, 5
  {
    if IsAt(ts, Keyword, "or") {
      var more, rest := OrLoopItem(left, ts, e);
      var k := e - (|ts| - |rest|);
      OrLoopCut(more, rest, k);
      CutTwice(OrLoop(more, rest), OrLoop(more, rest[..k]), ts, rest, e);
    } else {
      OrLoopStops(left, ts, e);
    }
  }

  lemma {:induction false} OrLoopStops(left: Expr, ts: Toks, e: nat)
    requires !IsAt(ts, Keyword, "or") && e <= |ts|
    ensures OrLoop(left, ts[..e]) == Some((left, ts[..e])) && OrLoop(left, ts) == Some((left, ts))
  {
  }

  /** One more operand, in the whole and in the cut. */
  lemma {:induction false} OrLoopItem(left: Expr, ts: Toks, e: nat) returns (more: Expr, rest: Toks)
    requires IsAt(ts, Keyword, "or") && OrLoop(left, ts).Some? && |ts| - |OrLoop(left, ts).value.1| <= e <= |ts|
    ensures |rest| < |ts| && |ts| - |rest| <= e && OrLoop(left, ts) == OrLoop(more, rest)
    ensures OrLoop(left, ts[..e]) == OrLoop(more, rest[..e - (|ts| - |rest|)])
    decreases |ts|, 0
  {
    var right := ParseAnd(ts[1..]).value.0;
    rest := ParseAnd(ts[1..]).value.1;
    more := Or(ts[0].value, left, right);
    OrLoopOnce(left, ts, right, rest);
    AndCut(ts[1..], e - 1);
    OrLoopOnceCut(left, ts, e, right, rest);
  }

  lemma {:induction false} OrLoopOnceCut(left: Expr, ts: Toks, e: nat, right: Expr, rest: Toks)
    requires IsAt(ts, Keyword, "or") && |rest| < |ts| - 1 && |ts| - |rest| <= e <= |ts|
    requires ParseAnd(ts[1..][..e - 1]) == Some((right, CutRest(ts[1..], rest, e - 1)))
    ensures OrLoop(left, ts[..e]) == OrLoop(Or(ts[0].value, left, right), rest[..e - (|ts| - |rest|)])
  {
    TailOfCut(ts, e, 1);
    OrLoopOnce(left, ts[..e], right, rest[..e - (|ts| - |rest|)]);
  }

  lemma {:induction false} OrLoopOnce(left: Expr, ts: Toks, right: Expr, rest: Toks)
    requires IsAt(ts, Keyword, "or") && ParseAnd(ts[1..]) == Some((right, rest))
    ensures OrLoop(left, ts) == OrLoop(Or(ts[0].value, left, right), rest)
  {
  }

  // ---- The CHECK condition kept as text ----

  /** The tokens that an expression consumed give it on their own. */
  lemma {:induction false} ConsumedParses(toks: Toks, i: nat, j: nat, e: Expr)
    requires i <= |toks| && j <= |toks| && ParseOr(toks[i..]) == Some((e, toks[j..]))
    ensures i < j && ParseOr(toks[i..j]) == Some((e, []))
  {
    assert |toks[j..]| < |toks[i..]|;
    OrCut(toks[i..], j - i);
    assert toks[i..][..j - i] == toks[i..j];
  }

  /** The source text of a parsed condition, from its first token to its last one, is
      kept with the table and parsed again when the table is loaded: it gives exactly
      the tokens of the condition and the same tree. */
  lemma {:induction false} CheckTextParsesBack(text: string, toks: Toks, i: nat, j: nat, e: Expr)
    requires toks == Bare(Tokens(text)) && i <= |toks| && j <= |toks| && ParseOr(toks[i..]) == Some((e, toks[j..]))
    ensures i < j && Tokens(text)[i].lo <= Tokens(text)[j - 1].hi <= |text|
    ensures Bare(Tokens(text[Tokens(text)[i].lo..Tokens(text)[j - 1].hi])) == toks[i..j]
    ensures ParseOr(toks[i..j]) == Some((e, []))
  {
    ConsumedParses(toks, i, j, e);
    SliceTokens(text, i, j);
    BareSlice(Tokens(text), i, j);
  }

  lemma {:induction false} BareSlice(ts: seq<Token>, i: nat, j: nat)
    requires i <= j <= |ts|
    ensures Bare(ts[i..j]) == Bare(ts)[i..j]
  {
  }
}
