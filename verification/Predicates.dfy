/** SQL conditions under three-valued logic, and the two syntactic questions the
    optimizer asks about them: which relations a condition reads, and whether it
    can be true for a row whose side of a given relation is all NULL. */
module Predicates {

  datatype Option<+T> = None | Some(value: T)

  datatype Value = Null | Num(number: real) | Str(text: string)

  datatype Truth = True | False | Unknown

  type Tuple = seq<Value>

  /** An intermediate row: slot k holds the tuple of the k-th FROM item, or None
      while that item is not joined yet and when it was filled up with NULLs. */
  type Row = seq<Option<Tuple>>

  datatype UnaryOp = IsNull | IsNotNull | OtherUnary(name: string)

  datatype BinaryOp =
    | And | Or
    | Eq | EqEq | Ne | Lt | Le | Gt | Ge
    | Equals | Contains
    | In | NotIn
    | OtherBinary(name: string)

  /** An IR expression after column resolution. A LooseColumn matches no FROM item
      or several; a Foreign node is one the optimizer does not read (a subquery,
      EXISTS). An IN list has at least one item, as in the grammar. */
  datatype Node =
    | Column(rel: nat, col: nat)
    | LooseColumn(name: string)
    | Numeric(value: real)
    | Literal(text: string)
    | InList(first: Node, rest: seq<Node>)
    | Call(name: string, args: seq<Node>)
    | Unary(uop: UnaryOp, arg: Node)
    | Binary(op: BinaryOp, left: Node, right: Node)
    | Foreign(kind: string)

  /** The stored tables, one per FROM item, and everything about the executor that
      the optimizer does not look into. */
  datatype World = World(
    tables: seq<seq<Tuple>>,
    otherCompare: (BinaryOp, Value, Value) -> bool,
    otherUnary: (string, Value) -> Value,
    otherBinary: (string, Value, Value) -> Value,
    call: (string, seq<Value>) -> Value,
    loose: (string, Row) -> Value,
    foreign: (string, Row) -> Value,
    memberOf: (string, Row, Value) -> Truth)

  function Not3(t: Truth): Truth {
    match t
    case True => False
    case False => True
    case Unknown => Unknown
  }

  function And3(a: Truth, b: Truth): Truth {
    if a == False || b == False then False
    else if a == True && b == True then True
    else Unknown
  }

  function Or3(a: Truth, b: Truth): Truth {
    Not3(And3(Not3(a), Not3(b)))
  }

  function OfBool(b: bool): Truth {
    if b then True else False
  }

  function TruthOf(v: Value): Truth {
    match v
    case Null => Unknown
    case Num(x) => OfBool(x != 0.0)
    case Str(_) => False
  }

  function ValueOf(t: Truth): Value {
    match t
    case True => Num(1.0)
    case False => Num(0.0)
    case Unknown => Null
  }

  predicate IsEquality(op: BinaryOp) {
    op.Eq? || op.EqEq?
  }

  predicate IsNumericComparison(op: BinaryOp) {
    op.Eq? || op.EqEq? || op.Ne? || op.Lt? || op.Le? || op.Gt? || op.Ge?
  }

  /** The six comparisons between two numbers. */
  function NumbersCompare(op: BinaryOp, a: real, b: real): bool
    requires IsNumericComparison(op)
  {
    match op
    case Eq => a == b
    case EqEq => a == b
    case Ne => a != b
    case Lt => a < b
    case Le => a <= b
    case Gt => a > b
    case Ge => a >= b
  }

  /** A comparison is unknown as soon as one side is NULL. Numbers compare as
      numbers and equal strings are identical strings; any other pair is left to
      the executor. */
  function Compare(w: World, op: BinaryOp, a: Value, b: Value): Truth {
    if a.Null? || b.Null? then Unknown
    else if a.Num? && b.Num? && IsNumericComparison(op) then OfBool(NumbersCompare(op, a.number, b.number))
    else if a.Str? && b.Str? && IsEquality(op) then OfBool(a.text == b.text)
    else if a.Str? && b.Str? && op.Ne? then OfBool(a.text != b.text)
    else OfBool(w.otherCompare(op, a, b))
  }

  /** x IN (v1, ..., vn) is the disjunction of the equalities. */
  function MemberOf(w: World, x: Value, items: seq<Value>): Truth {
    if items == [] then False
    else Or3(Compare(w, Eq, x, items[0]), MemberOf(w, x, items[1..]))
  }

  /** The value of a column, NULL where its relation has no tuple. */
  function ValueAt(row: Row, rel: nat, col: nat): Value {
    if rel < |row| && row[rel].Some? && col < |row[rel].value| then row[rel].value[col] else Null
  }

  function Eval(w: World, node: Node, row: Row): Value
    decreases node, 1
  {
    match node
    case Column(rel, col) => ValueAt(row, rel, col)
    case LooseColumn(name) => w.loose(name, row)
    case Numeric(x) => Num(x)
    case Literal(s) => Str(s)
    case InList(_, _) => Null
    case Call(name, args) => w.call(name, EvalAll(w, args, row))
    case Unary(op, arg) =>
      (match op
       case IsNull => ValueOf(OfBool(Eval(w, arg, row).Null?))
       case IsNotNull => ValueOf(OfBool(!Eval(w, arg, row).Null?))
       case OtherUnary(name) => w.otherUnary(name, Eval(w, arg, row)))
    case Binary(op, left, right) =>
      (match op
       case And => ValueOf(And3(TruthOf(Eval(w, left, row)), TruthOf(Eval(w, right, row))))
       case Or => ValueOf(Or3(TruthOf(Eval(w, left, row)), TruthOf(Eval(w, right, row))))
       case In => ValueOf(EvalMember(w, Eval(w, left, row), right, row))
       case NotIn => ValueOf(Not3(EvalMember(w, Eval(w, left, row), right, row)))
       case OtherBinary(name) => w.otherBinary(name, Eval(w, left, row), Eval(w, right, row))
       case _ => ValueOf(Compare(w, op, Eval(w, left, row), Eval(w, right, row))))
    case Foreign(kind) => w.foreign(kind, row)
  }

  function EvalAll(w: World, nodes: seq<Node>, row: Row): (values: seq<Value>)
    ensures |values| == |nodes|
    decreases nodes, 0
  {
    if nodes == [] then [] else [Eval(w, nodes[0], row)] + EvalAll(w, nodes[1..], row)
  }

  function EvalMember(w: World, x: Value, right: Node, row: Row): Truth
    decreases right, 2
  {
    match right
    case InList(first, rest) => MemberOf(w, x, [Eval(w, first, row)] + EvalAll(w, rest, row))
    case Foreign(kind) => w.memberOf(kind, row, x)
    case _ => Compare(w, Eq, x, Eval(w, right, row))
  }

  /** A condition keeps a row only when it is true, not when it is unknown. */
  predicate Holds(w: World, node: Node, row: Row) {
    TruthOf(Eval(w, node, row)) == True
  }

  predicate AllHold(w: World, nodes: seq<Node>, row: Row) {
    forall c <- nodes :: Holds(w, c, row)
  }

  // ---- What a condition reads ----

  /** The relations whose columns occur in a condition. */
  function Refs(node: Node): set<nat>
    decreases node, 1
  {
    match node
    case Column(rel, _) => {rel}
    case InList(first, rest) => Refs(first) + RefsOfAll(rest)
    case Call(_, args) => RefsOfAll(args)
    case Unary(_, arg) => Refs(arg)
    case Binary(_, left, right) => Refs(left) + Refs(right)
    case _ => {}
  }

  function RefsOfAll(nodes: seq<Node>): set<nat>
    decreases nodes, 0
  {
    if nodes == [] then {} else Refs(nodes[0]) + RefsOfAll(nodes[1..])
  }

  /** Some part of the condition is a column that does not resolve or a node the
      optimizer does not read. */
  predicate Unresolved(node: Node)
    decreases node, 1
  {
    match node
    case LooseColumn(_) => true
    case Foreign(_) => true
    case InList(first, rest) => Unresolved(first) || AnyUnresolved(rest)
    case Call(_, args) => AnyUnresolved(args)
    case Unary(_, arg) => Unresolved(arg)
    case Binary(_, left, right) => Unresolved(left) || Unresolved(right)
    case _ => false
  }

  predicate AnyUnresolved(nodes: seq<Node>)
    decreases nodes, 0
  {
    nodes != [] && (Unresolved(nodes[0]) || AnyUnresolved(nodes[1..]))
  }

  /** p occurs in n. */
  predicate IsPart(p: Node, n: Node)
    decreases n
  {
    p == n || match n
    case InList(first, rest) => IsPart(p, first) || exists i :: 0 <= i < |rest| && IsPart(p, rest[i])
    case Call(_, args) => exists i :: 0 <= i < |args| && IsPart(p, args[i])
    case Unary(_, arg) => IsPart(p, arg)
    case Binary(_, left, right) => IsPart(p, left) || IsPart(p, right)
    case _ => false
  }

  /** The mask of a condition is exactly the relations whose columns occur in it. */
  lemma {:induction false} RefsIff(n: Node, rel: nat)
    ensures rel in Refs(n) <==> exists col :: IsPart(Column(rel, col), n)
    decreases n, 1
  {
    match n
    case Column(r, c) => assert IsPart(Column(r, c), n);
    case InList(first, rest) =>
      RefsIff(first, rel);
      RefsOfAllIff(rest, rel);
      if col, i :| 0 <= i < |rest| && IsPart(Column(rel, col), rest[i]) {
        assert IsPart(Column(rel, col), n);
      }
    case Call(_, args) =>
      RefsOfAllIff(args, rel);
      if col, i :| 0 <= i < |args| && IsPart(Column(rel, col), args[i]) {
        assert IsPart(Column(rel, col), n);
      }
    case Unary(_, arg) => RefsIff(arg, rel);
    case Binary(_, left, right) =>
      RefsIff(left, rel);
      RefsIff(right, rel);
    case _ =>
  }

  lemma {:induction false} RefsOfAllIff(nodes: seq<Node>, rel: nat)
    ensures rel in RefsOfAll(nodes) <==> exists col, i :: 0 <= i < |nodes| && IsPart(Column(rel, col), nodes[i])
    decreases nodes, 0
  {
    if nodes != [] {
      RefsIff(nodes[0], rel);
      RefsOfAllIff(nodes[1..], rel);
      if col, i :| 0 <= i < |nodes[1..]| && IsPart(Column(rel, col), nodes[1..][i]) {
        assert IsPart(Column(rel, col), nodes[i + 1]);
      }
      if col, i :| 0 <= i < |nodes| && IsPart(Column(rel, col), nodes[i]) {
        assert i > 0 ==> nodes[i] == nodes[1..][i - 1];
      }
    }
  }

  predicate IsOpaque(n: Node) {
    n.LooseColumn? || n.Foreign?
  }

  /** A condition is unresolved if and only if a loose column or a node that is not
      read occurs in it. */
  lemma {:induction false} UnresolvedIff(n: Node)
    ensures Unresolved(n) <==> exists p :: IsOpaque(p) && IsPart(p, n)
    decreases n, 1
  {
    match n
    case LooseColumn(_) => assert IsPart(n, n);
    case Foreign(_) => assert IsPart(n, n);
    case InList(first, rest) =>
      UnresolvedIff(first);
      AnyUnresolvedIff(rest);
      if p, i :| IsOpaque(p) && 0 <= i < |rest| && IsPart(p, rest[i]) {
        assert IsPart(p, n);
      }
    case Call(_, args) =>
      AnyUnresolvedIff(args);
      if p, i :| IsOpaque(p) && 0 <= i < |args| && IsPart(p, args[i]) {
        assert IsPart(p, n);
      }
    case Unary(_, arg) => UnresolvedIff(arg);
    case Binary(_, left, right) =>
      UnresolvedIff(left);
      UnresolvedIff(right);
    case _ =>
  }

  lemma {:induction false} AnyUnresolvedIff(nodes: seq<Node>)
    ensures AnyUnresolved(nodes) <==> exists p, i :: IsOpaque(p) && 0 <= i < |nodes| && IsPart(p, nodes[i])
    decreases nodes, 0
  {
    if nodes != [] {
      UnresolvedIff(nodes[0]);
      AnyUnresolvedIff(nodes[1..]);
      if p, i :| IsOpaque(p) && 0 <= i < |nodes[1..]| && IsPart(p, nodes[1..][i]) {
        assert IsPart(p, nodes[i + 1]);
      }
      if p, i :| IsOpaque(p) && 0 <= i < |nodes| && IsPart(p, nodes[i]) {
        assert i > 0 ==> nodes[i] == nodes[1..][i - 1];
      }
    }
  }

  predicate AgreeOn(rels: set<nat>, a: Row, b: Row) {
    forall r <- rels :: (r < |a| <==> r < |b|) && (r < |a| ==> a[r] == b[r])
  }

  /** A resolved condition has the same value on any two rows that agree on the
      relations it reads. */
  lemma {:induction false} EvalReadsOnlyRefs(w: World, node: Node, a: Row, b: Row)
    requires !Unresolved(node)
    requires AgreeOn(Refs(node), a, b)
    ensures Eval(w, node, a) == Eval(w, node, b)
    decreases node, 1
  {
    match node
    case Column(rel, col) => assert rel in Refs(node);
    case InList(_, _) =>
    case Call(_, args) => EvalAllReadsOnlyRefs(w, args, a, b);
    case Unary(_, arg) => EvalReadsOnlyRefs(w, arg, a, b);
    case Binary(_, left, right) =>
      EvalReadsOnlyRefs(w, left, a, b);
      EvalReadsOnlyRefs(w, right, a, b);
      if right.InList? {
        EvalReadsOnlyRefs(w, right.first, a, b);
        EvalAllReadsOnlyRefs(w, right.rest, a, b);
      }
    case _ =>
  }

  lemma {:induction false} EvalAllReadsOnlyRefs(w: World, nodes: seq<Node>, a: Row, b: Row)
    requires !AnyUnresolved(nodes)
    requires AgreeOn(RefsOfAll(nodes), a, b)
    ensures EvalAll(w, nodes, a) == EvalAll(w, nodes, b)
    decreases nodes, 0
  {
    if nodes != [] {
      EvalReadsOnlyRefs(w, nodes[0], a, b);
      EvalAllReadsOnlyRefs(w, nodes[1..], a, b);
    }
  }

  // ---- Rejecting NULL ----

  predicate IsColumnOf(node: Node, rel: nat) {
    node.Column? && node.rel == rel
  }

  predicate RejectsNull(node: Node, rel: nat) {
    match node
    case Unary(op, arg) => op.IsNotNull? && IsColumnOf(arg, rel)
    case Binary(op, left, right) =>
      (match op
       case And => RejectsNull(left, rel) || RejectsNull(right, rel)
       case Or => RejectsNull(left, rel) && RejectsNull(right, rel)
       case In => IsColumnOf(left, rel)
       case NotIn => IsColumnOf(left, rel)
       case OtherBinary(_) => false
       case _ => IsColumnOf(left, rel) || IsColumnOf(right, rel))
    case _ => false
  }

  /** A test that NULL in a column of the relation fails: IS NOT NULL and (NOT) IN of
      the column, and a comparison that has it on either side. */
  predicate IsRejecting(n: Node, rel: nat) {
    || (n.Unary? && n.uop == IsNotNull && IsColumnOf(n.arg, rel))
    || (n.Binary? && n.op in {In, NotIn} && IsColumnOf(n.left, rel))
    || (n.Binary? && n.op in {Eq, EqEq, Ne, Lt, Le, Gt, Ge, Equals, Contains} && (IsColumnOf(n.left, rel) || IsColumnOf(n.right, rel)))
  }

  /** The condition can hold when its rejecting tests fail and all others pass. */
  predicate MayHold(n: Node, rel: nat) {
    if n.Binary? && n.op == And then MayHold(n.left, rel) && MayHold(n.right, rel)
    else if n.Binary? && n.op == Or then MayHold(n.left, rel) || MayHold(n.right, rel)
    else !IsRejecting(n, rel)
  }

  /** A condition rejects NULL if and only if it cannot hold once its rejecting tests fail. */
  lemma {:induction false} RejectsNullIff(n: Node, rel: nat)
    ensures RejectsNull(n, rel) <==> !MayHold(n, rel)
  {
    if n.Binary? && (n.op == And || n.op == Or) {
      RejectsNullIff(n.left, rel);
      RejectsNullIff(n.right, rel);
    }
  }

  lemma {:induction false} NullIsMemberOfNothing(w: World, items: seq<Value>)
    requires items != []
    ensures MemberOf(w, Null, items) == Unknown
  {
    if |items| > 1 {
      NullIsMemberOfNothing(w, items[1..]);
    }
  }

  /** A condition that rejects NULL is never true for a row whose side of that
      relation is all NULL. */
  lemma {:induction false} RejectsNullSound(w: World, node: Node, rel: nat, row: Row)
    requires RejectsNull(node, rel) && !Unresolved(node)
    requires rel < |row| && row[rel].None?
    ensures !Holds(w, node, row)
  {
    match node
    case Unary(_, arg) =>
      assert Eval(w, arg, row).Null?;
    case Binary(op, left, right) =>
      if op.And? {
        if RejectsNull(left, rel) {
          RejectsNullSound(w, left, rel, row);
        } else {
          RejectsNullSound(w, right, rel, row);
        }
      } else if op.Or? {
        RejectsNullSound(w, left, rel, row);
        RejectsNullSound(w, right, rel, row);
      } else if op.In? || op.NotIn? {
        assert Eval(w, left, row).Null? && !right.Foreign?;
        if right.InList? {
          NullIsMemberOfNothing(w, [Eval(w, right.first, row)] + EvalAll(w, right.rest, row));
        }
        assert EvalMember(w, Eval(w, left, row), right, row) == Unknown;
        assert Eval(w, node, row).Null?;
      } else {
        assert Compare(w, op, Eval(w, left, row), Eval(w, right, row)) == Unknown;
      }
  }

  lemma {:induction false} RejectsNullReads(node: Node, rel: nat)
    requires RejectsNull(node, rel)
    ensures rel in Refs(node)
  {
    match node
    case Unary(_, _) =>
    case Binary(op, left, right) =>
      if op.And? {
        if RejectsNull(left, rel) { RejectsNullReads(left, rel); } else { RejectsNullReads(right, rel); }
      } else if op.Or? {
        RejectsNullReads(left, rel);
      }
  }

  // ---- AND chains ----

  /** The leaves of a condition's topmost ANDs, left to right. */
  function LeavesOf(root: Node): (leaves: seq<Node>)
    ensures leaves != []
  {
    if root.Binary? && root.op.And? then LeavesOf(root.left) + LeavesOf(root.right) else [root]
  }

  function OptConjuncts(root: Option<Node>): seq<Node> {
    if root.None? then [] else LeavesOf(root.value)
  }

  /** Left nested, as the parser builds it. */
  function AndChain(nodes: seq<Node>): Option<Node> {
    if nodes == [] then None
    else if |nodes| == 1 then Some(nodes[0])
    else Some(Binary(And, AndChain(nodes[..|nodes| - 1]).value, nodes[|nodes| - 1]))
  }

  predicate OptHolds(w: World, root: Option<Node>, row: Row) {
    root.None? || Holds(w, root.value, row)
  }

  lemma {:induction false} ConjunctsHold(w: World, root: Node, row: Row)
    ensures Holds(w, root, row) <==> AllHold(w, LeavesOf(root), row)
  {
    if root.Binary? && root.op.And? {
      ConjunctsHold(w, root.left, row);
      ConjunctsHold(w, root.right, row);
      var l, r := LeavesOf(root.left), LeavesOf(root.right);
      assert forall c :: c in l + r <==> c in l || c in r;
    }
  }

  lemma {:induction false} AndChainHolds(w: World, nodes: seq<Node>, row: Row)
    ensures OptHolds(w, AndChain(nodes), row) <==> AllHold(w, nodes, row)
    ensures AndChain(nodes).None? <==> nodes == []
  {
    if |nodes| > 1 {
      var init, last := nodes[..|nodes| - 1], nodes[|nodes| - 1];
      AndChainHolds(w, init, row);
      assert nodes == init + [last];
      assert forall c :: c in nodes <==> c in init || c == last;
      var chain := AndChain(init).value;
      assert Holds(w, Binary(And, chain, last), row) <==> Holds(w, chain, row) && Holds(w, last, row);
    }
  }
}
