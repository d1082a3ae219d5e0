/** The parser of Boolean expressions, over the tokens that are left. AND binds
    tighter than OR, both are left associative. */
module SqlParser {
  import opened SqlTokens
  import opened SqlOperands

  datatype Expr =
    | IsNull(operand: Operand, negated: bool)
    | InList(operand: Operand, negated: bool, items: seq<Operand>)
    | Compare(op: string, left: Operand, right: Operand)
    | And(word: string, first: Expr, second: Expr)
    | Or(word: string, first: Expr, second: Expr)

  predicate StartsExists(ts: Toks) {
    IsAt(ts, Keyword, "exists") || (IsAt(ts, Keyword, "not") && |ts| > 1 && IsAt(ts[1..], Keyword, "exists"))
  }

  predicate StartsNotIn(ts: Toks) {
    IsAt(ts, Keyword, "not") && |ts| > 1 && IsAt(ts[1..], Keyword, "in")
  }

  // ---- IN lists ----

  /** The items of an IN list, behind its parenthesis, up to the closing one. */
  function ParseItems(ts: Toks): (r: Parsed<seq<Operand>>)
    ensures r.Some? ==> |r.value.1| < |ts|
  {
    if ts == [] || !(ts[0].kind.Number? || ts[0].kind.String?) then None
    else if IsAt(ts[1..], Symbol, ",") then Prefixed([ItemOf(ts[0])], ParseItems(ts[2..]))
    else if IsAt(ts[1..], Symbol, ")") then Some(([ItemOf(ts[0])], ts[2..]))
    else None
  }

  // ---- What follows the left operand ----

  function ParseIsNull(left: Operand, ts: Toks): (r: Parsed<Expr>)
    requires ts != []
    ensures r.Some? ==> |r.value.1| < |ts|
  {
    var negated := IsAt(ts[1..], Keyword, "not");
    var rest := if negated then ts[2..] else ts[1..];
    if IsAt(rest, Keyword, "null") then Some((IsNull(left, negated), rest[1..])) else None
  }

  function ParseIn(left: Operand, negated: bool, ts: Toks): (r: Parsed<Expr>)
    ensures r.Some? ==> |r.value.1| < |ts|
  {
    if StartsSelect(ts) || !IsAt(ts, Symbol, "(") then None
    else
      var items := ParseItems(ts[1..]);
      if items.None? then None else Some((InList(left, negated, items.value.0), items.value.1))
  }

  function ParseCompare(left: Operand, ts: Toks): (r: Parsed<Expr>)
    ensures r.Some? ==> |r.value.1| < |ts|
  {
    if ts == [] || !(ts[0].kind.Operator? || ts[0].kind.Keyword?) then None
    else
      var right := ParseOperand(ts[1..]);
      if right.None? then None else Some((Compare(ts[0].value, left, right.value.0), right.value.1))
  }

  function ParseTail(left: Operand, ts: Toks): (r: Parsed<Expr>)
    ensures r.Some? ==> |r.value.1| < |ts|
  {
    if IsAt(ts, Keyword, "is") then ParseIsNull(left, ts)
    else if StartsNotIn(ts) then ParseIn(left, true, ts[2..])
    else if IsAt(ts, Keyword, "in") then ParseIn(left, false, ts[1..])
    else ParseCompare(left, ts)
  }

  // ---- Expressions ----

  function ParseComparison(ts: Toks): (r: Parsed<Expr>)
    ensures r.Some? ==> |r.value.1| < |ts|
    decreases |ts|, 0
  {
    if StartsExists(ts) then None
    else if !StartsSelect(ts) && IsAt(ts, Symbol, "(") then
      var inner := ParseOr(ts[1..]);
      if inner.None? || !IsAt(inner.value.1, Symbol, ")") then None else Some((inner.value.0, inner.value.1[1..]))
    else
      var left := ParseOperand(ts);
      if left.None? then None else ParseTail(left.value.0, left.value.1)
  }

  function ParseAnd(ts: Toks): (r: Parsed<Expr>)
    ensures r.Some? ==> |r.value.1| < |ts|
    decreases |ts|, 1
  {
    var left := ParseComparison(ts);
    if left.None? then None else AndLoop(left.value.0, left.value.1)
  }

  function AndLoop(left: Expr, ts: Toks): (r: Parsed<Expr>)
    ensures r.Some? ==> |r.value.1| <= |ts|
    decreases |ts|, 2
  {
    if !IsAt(ts, Keyword, "and") then Some((left, ts))
    else
      var right := ParseComparison(ts[1..]);
      if right.None? then None else AndLoop(And(ts[0].value, left, right.value.0), right.value.1)
  }

  function ParseOr(ts: Toks): (r: Parsed<Expr>)
    ensures r.Some? ==> |r.value.1| < |ts|
    decreases |ts|, 3
  {
    var left := ParseAnd(ts);
    if left.None? then None else OrLoop(left.value.0, left.value.1)
  }

  function OrLoop(left: Expr, ts: Toks): (r: Parsed<Expr>)
    ensures r.Some? ==> |r.value.1| <= |ts|
    decreases |ts|, 4
  {
    if !IsAt(ts, Keyword, "or") then Some((left, ts))
    else
      var right := ParseAnd(ts[1..]);
      if right.None? then None else OrLoop(Or(ts[0].value, left, right.value.0), right.value.1)
  }

  // ---- Printing with the fewest parentheses ----

  predicate IsItem(o: Operand) {
    o.Numeric? || o.Literal?
  }

  predicate AllItems(os: seq<Operand>) {
    forall i :: 0 <= i < |os| ==> IsItem(os[i])
  }

  function PrintItems(items: seq<Operand>): Toks
    requires items != []
  {
    PrintOperand(items[0]) + if |items| == 1 then Word(Symbol, ")") else Word(Symbol, ",") + PrintItems(items[1..])
  }

  function PrintOp(op: string): Toks {
    Word(if op in OPERATORS then Operator else Keyword, op)
  }

  function PrintNot(negated: bool): Toks {
    if negated then Word(Keyword, "not") else []
  }

  /** OVER behind a call would start its window. */
  predicate IsComparison(op: string, left: Operand) {
    || op in OPERATORS
    || (IsKeyword(op) && Lower(op) != "is" && Lower(op) != "in" && (Lower(op) == "over" ==> !left.Call? || left.window.Some?))
  }

  predicate IsWellformed(e: Expr) {
    match e
    case IsNull(o, _) => IsOperand(o)
    case InList(o, _, items) => IsOperand(o) && items != [] && AllItems(items)
    case Compare(op, a, b) => IsOperand(a) && IsOperand(b) && IsComparison(op, a)
    case And(word, a, b) => Lower(word) == "and" && IsWellformed(a) && IsWellformed(b)
    case Or(word, a, b) => Lower(word) == "or" && IsWellformed(a) && IsWellformed(b)
  }

  /** Level 0 takes any expression, level 1 none that is an OR, level 2 only a single
      comparison. What does not fit goes into parentheses. */
  function Print(e: Expr, level: nat): Toks
    requires IsWellformed(e)
    decreases e, 1
  {
    if (e.Or? && level > 0) || (e.And? && level > 1)
    then Word(Symbol, "(") + PrintPlain(e) + Word(Symbol, ")")
    else PrintPlain(e)
  }

  function PrintPlain(e: Expr): Toks
    requires IsWellformed(e)
    decreases e, 0
  {
    match e
    case IsNull(o, negated) => PrintOperand(o) + Word(Keyword, "is") + PrintNot(negated) + Word(Keyword, "null")
    case InList(o, negated, items) =>
      PrintOperand(o) + PrintNot(negated) + Word(Keyword, "in") + Word(Symbol, "(") + PrintItems(items)
    case Compare(op, a, b) => PrintOperand(a) + PrintOp(op) + PrintOperand(b)
    case And(word, a, b) => Print(a, 1) + Word(Keyword, word) + Print(b, 2)
    case Or(word, a, b) => Print(a, 0) + Word(Keyword, word) + Print(b, 1)
  }
}
