/** The parser of operands, over the tokens that are left: columns, literals, truth
    values and function calls with their windows, and the printer for them. */
module SqlOperands {
  import opened SqlTokens

  /** Star is the argument of COUNT(*), which is kept as a column of that name. */
  datatype Operand =
    | Column(qualifier: Option<string>, name: string)
    | Star
    | Numeric(text: string)
    | Literal(text: string)
    | Call(name: string, args: seq<Operand>, window: Option<Window>)

  /** OVER (PARTITION BY columns ORDER BY keys); an empty part is not written. */
  datatype Window = Window(partition: seq<Operand>, order: seq<SortKey>)

  /** A direction is kept as the word it was written with. */
  datatype SortKey = SortKey(key: Operand, direction: Option<string>)

  type Toks = seq<Tok>

  /** What a parse function found, and the tokens behind it. */
  type Parsed<T> = Option<(T, Toks)>

  predicate IsAt(ts: Toks, kind: Kind, value: string) {
    ts != [] && ts[0].kind == kind && Lower(ts[0].value) == value
  }

  predicate StartsSelect(ts: Toks) {
    IsAt(ts, Symbol, "(") && |ts| > 1 && IsAt(ts[1..], Keyword, "select")
  }

  predicate StartsCall(ts: Toks) {
    ts != [] && ts[0].kind.Identifier? && IsAt(ts[1..], Symbol, "(")
  }

  // ---- Columns and arguments ----

  function ParseColumnRef(ts: Toks): (r: Parsed<Operand>)
    ensures r.Some? ==> |r.value.1| < |ts|
  {
    if ts == [] || !ts[0].kind.Identifier? then None
    else if IsAt(ts[1..], Symbol, ".") && |ts| > 2 && ts[2].kind.Identifier? then
      Some((Column(Some(ts[0].value), ts[2].value), ts[3..]))
    else Some((Column(None, ts[0].value), ts[1..]))
  }

  function ItemOf(t: Tok): Operand
    requires t.kind.Number? || t.kind.String?
  {
    if t.kind.Number? then Numeric(t.value) else Literal(t.value)
  }

  /** One argument of a call, or one column where nothing else is allowed. */
  function ParseArg(ts: Toks, columns: bool): (r: Parsed<Operand>)
    ensures r.Some? ==> |r.value.1| < |ts|
  {
    if columns then ParseColumnRef(ts)
    else if IsAt(ts, Symbol, "*") then Some((Star, ts[1..]))
    else if ts != [] && (ts[0].kind.Number? || ts[0].kind.String?) then Some((ItemOf(ts[0]), ts[1..]))
    else ParseColumnRef(ts)
  }

  function Prefixed<T>(first: seq<T>, others: Parsed<seq<T>>): Parsed<seq<T>> {
    if others.None? then None else Some((first + others.value.0, others.value.1))
  }

  lemma {:induction false} PrefixedTwice<T>(first: seq<T>, one: T, others: Parsed<seq<T>>)
    ensures Prefixed(first, Prefixed([one], others)) == Prefixed(first + [one], others)
  {
    if others.Some? {
      assert first + ([one] + others.value.0) == (first + [one]) + others.value.0;
    }
  }

  lemma {:induction false} NothingPrefixed<T>(others: Parsed<seq<T>>)
    ensures Prefixed([], others) == others
  {
    if others.Some? {
      assert [] + others.value.0 == others.value.0;
    }
  }

  /** One or more of them, with commas in between. */
  function ParseList(ts: Toks, columns: bool): (r: Parsed<seq<Operand>>)
    ensures r.Some? ==> |r.value.1| < |ts|
  {
    var one := ParseArg(ts, columns);
    if one.None? then None
    else if IsAt(one.value.1, Symbol, ",") then Prefixed([one.value.0], ParseList(one.value.1[1..], columns))
    else Some(([one.value.0], one.value.1))
  }

  function ParseArgs(ts: Toks): (r: Parsed<seq<Operand>>)
    ensures r.Some? ==> |r.value.1| <= |ts|
  {
    if IsAt(ts, Symbol, ")") then Some(([], ts)) else ParseList(ts, false)
  }

  // ---- Calls and windows ----

  function ParseCall(ts: Toks): (r: Parsed<Operand>)
    requires StartsCall(ts)
    ensures r.Some? ==> |r.value.1| < |ts|
    decreases |ts|, 0
  {
    var args := ParseArgs(ts[2..]);
    if args.None? then None else ParseOver(ts[0].value, args.value.0, args.value.1)
  }

  /** The closing parenthesis of a call, and its window. */
  function ParseOver(name: string, args: seq<Operand>, ts: Toks): (r: Parsed<Operand>)
    ensures r.Some? ==> |r.value.1| < |ts|
    decreases |ts|, 0
  {
    if !IsAt(ts, Symbol, ")") then None
    else if !IsAt(ts[1..], Keyword, "over") then Some((Call(name, args, None), ts[1..]))
    else
      var window := ParseWindow(ts[2..]);
      if window.None? then None else Some((Call(name, args, Some(window.value.0)), window.value.1))
  }

  function ParseWindow(ts: Toks): (r: Parsed<Window>)
    ensures r.Some? ==> |r.value.1| < |ts|
    decreases |ts|, 0
  {
    if !IsAt(ts, Symbol, "(") then None
    else
      var partition := ParsePartition(ts[1..]);
      if partition.None? then None else ParseWindowEnd(partition.value.0, partition.value.1)
  }

  function ParsePartition(ts: Toks): (r: Parsed<seq<Operand>>)
    ensures r.Some? ==> |r.value.1| <= |ts|
  {
    if !IsAt(ts, Keyword, "partition") then Some(([], ts))
    else if !IsAt(ts[1..], Keyword, "by") then None
    else ParseList(ts[2..], true)
  }

  function ParseWindowEnd(partition: seq<Operand>, ts: Toks): (r: Parsed<Window>)
    ensures r.Some? ==> |r.value.1| < |ts|
    decreases |ts|, 3
  {
    var order := ParseOrder(ts);
    if order.None? || !IsAt(order.value.1, Symbol, ")") then None
    else Some((Window(partition, order.value.0), order.value.1[1..]))
  }

  function ParseOrder(ts: Toks): (r: Parsed<seq<SortKey>>)
    ensures r.Some? ==> |r.value.1| <= |ts|
    decreases |ts|, 0
  {
    if !IsAt(ts, Keyword, "order") then Some(([], ts))
    else if !IsAt(ts[1..], Keyword, "by") then None
    else ParseKeys(ts[2..])
  }

  function ParseKeys(ts: Toks): (r: Parsed<seq<SortKey>>)
    ensures r.Some? ==> |r.value.1| < |ts|
    decreases |ts|, 3
  {
    var one := ParseKey(ts);
    if one.None? then None
    else if IsAt(one.value.1, Symbol, ",") then Prefixed([one.value.0], ParseKeys(one.value.1[1..]))
    else Some(([one.value.0], one.value.1))
  }

  function ParseKey(ts: Toks): (r: Parsed<SortKey>)
    ensures r.Some? ==> |r.value.1| < |ts|
    decreases |ts|, 2
  {
    var key := ParseColumnOrCall(ts);
    if key.None? then None else Some(WithDirection(key.value.0, key.value.1))
  }

  /** A name with a parenthesis behind it is a call. */
  function ParseColumnOrCall(ts: Toks): (r: Parsed<Operand>)
    ensures r.Some? ==> |r.value.1| < |ts|
    decreases |ts|, 1
  {
    if StartsCall(ts) then ParseCall(ts) else ParseColumnRef(ts)
  }

  predicate StartsDirection(ts: Toks) {
    IsAt(ts, Keyword, "asc") || IsAt(ts, Keyword, "desc")
  }

  function WithDirection(key: Operand, ts: Toks): (SortKey, Toks) {
    if StartsDirection(ts) then (SortKey(key, Some(ts[0].value)), ts[1..]) else (SortKey(key, None), ts)
  }

  // ---- Operands ----

  /** A subquery is not part of the modelled grammar and counts as refused. */
  function ParseOperand(ts: Toks): (r: Parsed<Operand>)
    ensures r.Some? ==> |r.value.1| < |ts|
  {
    if ts == [] || StartsSelect(ts) then None
    else
      match ts[0].kind
      case Identifier => ParseColumnOrCall(ts)
      case Number => Some((Numeric(ts[0].value), ts[1..]))
      case String => Some((Literal(ts[0].value), ts[1..]))
      case Keyword =>
        if IsAt(ts, Keyword, "true") then Some((Numeric("1"), ts[1..]))
        else if IsAt(ts, Keyword, "false") then Some((Numeric("0"), ts[1..]))
        else None
      case _ => None
  }

  // ---- The operands there are ----

  predicate IsArg(o: Operand) {
    !o.Call?
  }

  predicate AllArgs(os: seq<Operand>) {
    forall i :: 0 <= i < |os| ==> IsArg(os[i])
  }

  predicate AllColumns(os: seq<Operand>) {
    forall i :: 0 <= i < |os| ==> os[i].Column?
  }

  predicate IsOperand(o: Operand)
    decreases o, 1
  {
    !o.Star? && (o.Call? ==> IsCall(o))
  }

  predicate IsCall(o: Operand)
    requires o.Call?
    decreases o, 0
  {
    AllArgs(o.args) && (o.window.Some? ==> IsWindow(o.window.value))
  }

  predicate IsWindow(w: Window)
    decreases w
  {
    AllColumns(w.partition) && AreKeys(w.order)
  }

  predicate AreKeys(keys: seq<SortKey>)
    decreases keys
  {
    forall i :: 0 <= i < |keys| ==> IsKey(keys[i])
  }

  predicate IsKey(k: SortKey)
    decreases k
  {
    && (k.key.Column? || (k.key.Call? && IsCall(k.key)))
    && (k.direction.Some? ==> IsDirection(k.direction.value))
  }

  predicate IsDirection(word: string) {
    Lower(word) == "asc" || Lower(word) == "desc"
  }

  // ---- Printing ----

  function Word(kind: Kind, value: string): Toks {
    [Tok(kind, value)]
  }

  function PrintOperand(o: Operand): Toks
    decreases o
  {
    match o
    case Column(qualifier, name) =>
      if qualifier.Some? then Word(Identifier, qualifier.value) + Word(Symbol, ".") + Word(Identifier, name)
      else Word(Identifier, name)
    case Star => Word(Symbol, "*")
    case Numeric(text) => Word(Number, text)
    case Literal(text) => Word(String, text)
    case Call(name, args, window) =>
      Word(Identifier, name) + (Word(Symbol, "(") + (PrintList(args) + (Word(Symbol, ")") + PrintOver(window))))
  }

  function PrintList(os: seq<Operand>): Toks
    decreases os, 0
  {
    if os == [] then []
    else PrintOperand(os[0]) + if |os| == 1 then [] else Word(Symbol, ",") + PrintList(os[1..])
  }

  function PrintOver(window: Option<Window>): Toks
    decreases window
  {
    if window.None? then [] else Word(Keyword, "over") + PrintWindow(window.value)
  }

  function PrintWindow(w: Window): Toks
    decreases w
  {
    Word(Symbol, "(") + (PrintPartition(w.partition) + (PrintOrder(w.order) + Word(Symbol, ")")))
  }

  function PrintPartition(columns: seq<Operand>): Toks
    decreases columns, 1
  {
    if columns == [] then [] else Word(Keyword, "partition") + (Word(Keyword, "by") + PrintList(columns))
  }

  function PrintOrder(keys: seq<SortKey>): Toks
    decreases keys, 1
  {
    if keys == [] then [] else Word(Keyword, "order") + (Word(Keyword, "by") + PrintKeys(keys))
  }

  function PrintKeys(keys: seq<SortKey>): Toks
    decreases keys, 0
  {
    if keys == [] then []
    else PrintKey(keys[0]) + if |keys| == 1 then [] else Word(Symbol, ",") + PrintKeys(keys[1..])
  }

  function PrintKey(k: SortKey): Toks
    decreases k
  {
    PrintOperand(k.key) + PrintDirection(k.direction)
  }

  function PrintDirection(direction: Option<string>): Toks {
    if direction.None? then [] else Word(Keyword, direction.value)
  }
}
