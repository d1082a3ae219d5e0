/** The grammar of Boolean expressions, said without the parser: which tokens denote
    which tree. */
module SqlGrammar {
  import opened SqlTokens
  import opened SqlOperands
  import opened SqlParser

  predicate IsTok(t: Tok, kind: Kind, value: string) {
    t.kind == kind && Lower(t.value) == value
  }

  // ---- Columns, arguments and lists ----

  predicate DenotesColumn(ts: Toks, o: Operand) {
    o.Column? &&
    if o.qualifier.None? then ts == [Tok(Identifier, o.name)]
    else |ts| == 3 && ts[0] == Tok(Identifier, o.qualifier.value) && IsTok(ts[1], Symbol, ".") && ts[2] == Tok(Identifier, o.name)
  }

  predicate DenotesArg(ts: Toks, o: Operand) {
    match o
    case Column(_, _) => DenotesColumn(ts, o)
    case Star => |ts| == 1 && IsTok(ts[0], Symbol, "*")
    case Numeric(text) => ts == [Tok(Number, text)]
    case Literal(text) => ts == [Tok(String, text)]
    case Call(_, _, _) => false
  }

  predicate DenotesItem(ts: Toks, o: Operand, columns: bool) {
    if columns then DenotesColumn(ts, o) else DenotesArg(ts, o)
  }

  /** A first part of k tokens, a comma and a rest. */
  predicate IsSplit(ts: Toks, k: nat) {
    k < |ts| && IsTok(ts[k], Symbol, ",")
  }

  ghost predicate DenotesList(ts: Toks, os: seq<Operand>, columns: bool)
    decreases |os|
  {
    os != [] &&
    if |os| == 1 then DenotesItem(ts, os[0], columns)
    else exists k: nat :: IsSplit(ts, k) && DenotesItem(ts[..k], os[0], columns) && DenotesList(ts[k + 1..], os[1..], columns)
  }

  ghost predicate DenotesArgs(ts: Toks, os: seq<Operand>) {
    if os == [] then ts == [] else DenotesList(ts, os, false)
  }

  // ---- Calls and windows ----

  ghost predicate DenotesCall(ts: Toks, o: Operand)
    decreases |ts|, 0
  {
    && o.Call? && |ts| > 2 && ts[0] == Tok(Identifier, o.name) && IsTok(ts[1], Symbol, "(")
    && exists k: nat :: 2 <= k < |ts| && DenotesArgs(ts[2..k], o.args) && IsTok(ts[k], Symbol, ")") && DenotesOver(ts[k + 1..], o.window)
  }

  ghost predicate DenotesOver(ts: Toks, window: Option<Window>)
    decreases |ts|, 0
  {
    if window.None? then ts == [] else ts != [] && IsTok(ts[0], Keyword, "over") && DenotesWindow(ts[1..], window.value)
  }

  ghost predicate DenotesWindow(ts: Toks, w: Window)
    decreases |ts|, 0
  {
    && |ts| > 1 && IsTok(ts[0], Symbol, "(") && IsTok(ts[|ts| - 1], Symbol, ")")
    && exists k: nat :: 1 <= k < |ts| && DenotesPartition(ts[1..k], w.partition) && DenotesOrder(ts[k..|ts| - 1], w.order)
  }

  ghost predicate DenotesPartition(ts: Toks, columns: seq<Operand>) {
    if columns == [] then ts == []
    else |ts| > 2 && IsTok(ts[0], Keyword, "partition") && IsTok(ts[1], Keyword, "by") && DenotesList(ts[2..], columns, true)
  }

  ghost predicate DenotesOrder(ts: Toks, keys: seq<SortKey>)
    decreases |ts|, 0
  {
    if keys == [] then ts == []
    else |ts| > 2 && IsTok(ts[0], Keyword, "order") && IsTok(ts[1], Keyword, "by") && DenotesKeys(ts[2..], keys)
  }

  ghost predicate DenotesKeys(ts: Toks, keys: seq<SortKey>)
    decreases |ts|, 3
  {
    keys != [] &&
    if |keys| == 1 then DenotesKey(ts, keys[0])
    else exists k: nat :: IsSplit(ts, k) && DenotesKey(ts[..k], keys[0]) && DenotesKeys(ts[k + 1..], keys[1..])
  }

  /** ASC and DESC in any case; a direction is kept as it is written. */
  ghost predicate DenotesKey(ts: Toks, k: SortKey)
    decreases |ts|, 2
  {
    if k.direction.None? then DenotesColumnOrCall(ts, k.key)
    else
      && ts != [] && ts[|ts| - 1] == Tok(Keyword, k.direction.value) && IsDirection(k.direction.value)
      && DenotesColumnOrCall(ts[..|ts| - 1], k.key)
  }

  ghost predicate DenotesColumnOrCall(ts: Toks, o: Operand)
    decreases |ts|, 1
  {
    DenotesColumn(ts, o) || DenotesCall(ts, o)
  }

  /** TRUE is 1 and FALSE is 0. */
  ghost predicate DenotesOperand(ts: Toks, o: Operand) {
    match o
    case Column(_, _) => DenotesColumn(ts, o)
    case Call(_, _, _) => DenotesCall(ts, o)
    case Numeric(text) =>
      || ts == [Tok(Number, text)]
      || (text == "1" && |ts| == 1 && IsTok(ts[0], Keyword, "true"))
      || (text == "0" && |ts| == 1 && IsTok(ts[0], Keyword, "false"))
    case Literal(text) => ts == [Tok(String, text)]
    case Star => false
  }

  // ---- Expressions ----

  /** The items of an IN list with commas in between. */
  predicate DenotesItems(ts: Toks, items: seq<Operand>) {
    && items != [] && |ts| == 2 * |items| - 1
    && (forall i :: 0 <= i < |items| ==> (ts[2 * i].kind.Number? || ts[2 * i].kind.String?) && items[i] == ItemOf(ts[2 * i]))
    && (forall i :: 0 <= i < |items| - 1 ==> IsTok(ts[2 * i + 1], Symbol, ","))
  }

  predicate DenotesNull(ts: Toks, negated: bool) {
    && |ts| == (if negated then 3 else 2)
    && IsTok(ts[0], Keyword, "is") && (negated ==> IsTok(ts[1], Keyword, "not")) && IsTok(ts[|ts| - 1], Keyword, "null")
  }

  predicate DenotesIn(ts: Toks, negated: bool, items: seq<Operand>) {
    var n := if negated then 1 else 0;
    && |ts| > n + 3 && (negated ==> IsTok(ts[0], Keyword, "not"))
    && IsTok(ts[n], Keyword, "in") && IsTok(ts[n + 1], Symbol, "(") && IsTok(ts[|ts| - 1], Symbol, ")")
    && DenotesItems(ts[n + 2..|ts| - 1], items)
  }

  /** Any operator or keyword but IS and IN; OVER behind a call without a window is the
      start of its window. */
  predicate IsOperator(t: Tok, left: Operand) {
    && (t.kind.Operator? || t.kind.Keyword?) && !IsTok(t, Keyword, "is") && !IsTok(t, Keyword, "in")
    && !(left.Call? && left.window.None? && IsTok(t, Keyword, "over"))
  }

  /** What follows the left operand. */
  ghost predicate DenotesTail(ts: Toks, e: Expr)
    requires !e.And? && !e.Or?
  {
    match e
    case IsNull(_, negated) => DenotesNull(ts, negated)
    case InList(_, negated, items) => DenotesIn(ts, negated, items)
    case Compare(op, left, right) => |ts| > 1 && IsOperator(ts[0], left) && ts[0].value == op && DenotesOperand(ts[1..], right)
  }

  function LeftOperand(e: Expr): Operand
    requires !e.And? && !e.Or?
  {
    if e.Compare? then e.left else e.operand
  }

  /** One comparison, or any expression in parentheses. */
  ghost predicate DenotesComparison(ts: Toks, e: Expr)
    decreases |ts|, 0
  {
    || (|ts| > 2 && IsTok(ts[0], Symbol, "(") && IsTok(ts[|ts| - 1], Symbol, ")") && DenotesOr(ts[1..|ts| - 1], e))
    || (!e.And? && !e.Or? && exists k: nat :: k < |ts| && DenotesOperand(ts[..k], LeftOperand(e)) && DenotesTail(ts[k..], e))
  }

  predicate IsLink(ts: Toks, k: nat, link: string, word: string) {
    k < |ts| && IsTok(ts[k], Keyword, link) && ts[k].value == word
  }

  /** Comparisons with AND in between, grouped from the left. */
  ghost predicate DenotesAnd(ts: Toks, e: Expr)
    decreases |ts|, 1
  {
    || DenotesComparison(ts, e)
    || (e.And? && exists k: nat :: IsLink(ts, k, "and", e.word) && DenotesAnd(ts[..k], e.first) && DenotesComparison(ts[k + 1..], e.second))
  }

  /** AND chains with OR in between, grouped from the left. */
  ghost predicate DenotesOr(ts: Toks, e: Expr)
    decreases |ts|, 2
  {
    || DenotesAnd(ts, e)
    || (e.Or? && exists k: nat :: IsLink(ts, k, "or", e.word) && DenotesOr(ts[..k], e.first) && DenotesAnd(ts[k + 1..], e.second))
  }
}
