/** The query as the optimizer sees it: the steps of the FROM clause and the list
    of conjuncts, each with the place it goes to. Sending every conjunct to its
    destination, with left joins converted where WHERE rejects NULL, gives a
    pipeline that refines the written one. */
module Conjuncts {
  import opened Predicates
  import opened Plans
  import opened Refinement

  const OPT_MAX_RELATIONS := 32
  const OPT_MAX_CONJUNCTS := 64
  const OPT_CONJUNCT_CAPACITY := 65

  /** steps[k] joins relation k to everything before it. */
  datatype Step = Step(kind: JoinType, on: Option<Node>, nullSupplying: bool)

  datatype Destination = Residual | Filter | OnClause | Dropped

  datatype Conjunct = Conjunct(
    node: Node,
    mask: set<nat>,
    unresolved: bool,
    fromWhere: bool,
    step: nat,
    destination: Destination,
    target: nat)

  const BASE_STEP := Step(Inner, None, false)

  // ---- Flattening the FROM clause ----

  /** Only a left-deep tree of scans qualifies. */
  function FlattenFrom(plan: Plan, steps: seq<Step>): (flat: Option<seq<Step>>)
    ensures flat.Some? ==> |steps| < |flat.value| <= OPT_MAX_RELATIONS && steps <= flat.value
    ensures flat.Some? ==> forall k :: |steps| <= k < |flat.value| ==>
              (flat.value[k].nullSupplying <==> flat.value[k].kind.Left?)
  {
    if |steps| >= OPT_MAX_RELATIONS then None
    else
      match plan
      case Scan(_) => Some(steps + [BASE_STEP])
      case Join(kind, input, input2, on) =>
        if !input2.Scan? then None
        else
          var left := FlattenFrom(input, steps);
          if left.None? then None
          else
            var both := FlattenFrom(input2, left.value);
            if both.None? then None
            else Some(both.value[|both.value| - 1 := Step(kind, on, kind.Left?)])
      case Select(_, _) => None
  }

  /** Every join adds one table to the joins before it. */
  predicate IsLeftDeep(plan: Plan) {
    plan.Scan? || (plan.Join? && IsLeftDeep(plan.input) && plan.input2.Scan?)
  }

  /** Exactly the left-deep trees of up to 32 tables are flattened. */
  lemma {:induction false} FlattenIff(plan: Plan, steps: seq<Step>)
    ensures FlattenFrom(plan, steps).Some? <==> IsLeftDeep(plan) && |steps| + Items(plan) <= OPT_MAX_RELATIONS
    ensures FlattenFrom(plan, steps).Some? ==> |FlattenFrom(plan, steps).value| == |steps| + Items(plan)
  {
    if plan.Join? && plan.input2.Scan? {
      FlattenIff(plan.input, steps);
      var left := FlattenFrom(plan.input, steps);
      if left.Some? {
        FlattenIff(plan.input2, left.value);
      }
    }
  }

  /** The FROM items are numbered in textual order, starting at first; a comma
      join has no condition of its own. */
  predicate Numbered(plan: Plan, first: nat) {
    match plan
    case Scan(rel) => rel == first
    case Join(kind, input, input2, on) =>
      && Numbered(input, first) && Numbered(input2, first + Items(input))
      && (kind.Cross? ==> on.None?)
    case Select(input, _) => Numbered(input, first)
  }

  function Items(plan: Plan): (n: nat)
    ensures n > 0
  {
    match plan
    case Scan(_) => 1
    case Join(_, input, input2, _) => Items(input) + Items(input2)
    case Select(input, _) => Items(input)
  }

  function WrittenStages(steps: seq<Step>): (stages: seq<Stage>)
    ensures |stages| == |steps|
  {
    seq(|steps|, k requires 0 <= k < |steps| => Stage(k, steps[k].kind, [], OptConjuncts(steps[k].on)))
  }

  /** The query as written. */
  function Written(steps: seq<Step>, where: Option<Node>): Pipeline {
    Pipeline(WrittenStages(steps), OptConjuncts(where))
  }

  lemma {:induction false} OptConjunctsHold(w: World, root: Option<Node>, row: Row)
    ensures OptHolds(w, root, row) <==> OptHolds(w, AndChain(OptConjuncts(root)), row)
  {
    AndChainHolds(w, OptConjuncts(root), row);
    if root.Some? {
      ConjunctsHold(w, root.value, row);
    }
  }

  lemma {:induction false} SameMatchesFor(w: World, kind: JoinType, on: Option<Node>, left: Row, rights: seq<Row>)
    ensures Matches(w, kind, on, left, rights) == Matches(w, kind, AndChain(OptConjuncts(on)), left, rights)
  {
    if rights != [] {
      OptConjunctsHold(w, on, Merge(left, rights[0]));
      SameMatchesFor(w, kind, on, left, rights[1..]);
    }
  }

  lemma {:induction false} SameJoinFor(w: World, kind: JoinType, on: Option<Node>, lefts: seq<Row>, rights: seq<Row>)
    ensures JoinRows(w, kind, on, lefts, rights) == JoinRows(w, kind, AndChain(OptConjuncts(on)), lefts, rights)
  {
    if lefts != [] {
      SameMatchesFor(w, kind, on, lefts[0], rights);
      SameJoinFor(w, kind, on, lefts[1..], rights);
    }
  }

  lemma {:induction false} SameFilterFor(w: World, condition: Option<Node>, rows: seq<Row>)
    ensures FilterRows(w, condition, rows) == FilterRows(w, AndChain(OptConjuncts(condition)), rows)
  {
    if rows != [] {
      OptConjunctsHold(w, condition, rows[0]);
      SameFilterFor(w, condition, rows[1..]);
    }
  }

  predicate CrossHasNoCondition(steps: seq<Step>) {
    forall k :: 0 <= k < |steps| && steps[k].kind.Cross? ==> steps[k].on.None?
  }

  lemma {:induction false} FlattenShape(plan: Plan, steps: seq<Step>)
    requires Numbered(plan, |steps|) && FlattenFrom(plan, steps).Some?
    ensures var flat := FlattenFrom(plan, steps).value;
            |flat| == |steps| + Items(plan)
            && (CrossHasNoCondition(steps) ==> CrossHasNoCondition(flat))
            && (steps == [] ==> flat[0] == BASE_STEP)
  {
    if plan.Join? {
      FlattenShape(plan.input, steps);
      FlattenShape(plan.input2, FlattenFrom(plan.input, steps).value);
    }
  }

  /** A flattened FROM clause, with its WHERE, means its pipeline. */
  lemma {:induction false} FlattenedRows(w: World, plan: Plan, steps: seq<Step>, where: Option<Node>)
    requires FlattenFrom(plan, []) == Some(steps) && Numbered(plan, 0)
    requires Fits(w, Written(steps, where))
    ensures EvalPlan(w, plan) == JoinedRows(w, Written(steps, where), |steps|)
  {
    FlattenShape(plan, []);
    assert StageFits(w, Written(steps, where).stages[|steps| - 1]);
    if plan.Scan? {
      FilterNothing(w, ScanFrom(w, 0, 0));
    } else {
      var before := FlattenBefore(plan, steps);
      PrefixFits(w, before, steps, where);
      FlattenedRows(w, plan.input, before, where);
      FlattenedJoin(w, plan, before, steps, where);
    }
  }

  /** The steps before the last join. */
  lemma {:induction false} FlattenBefore(plan: Plan, steps: seq<Step>) returns (before: seq<Step>)
    requires FlattenFrom(plan, []) == Some(steps) && Numbered(plan, 0) && plan.Join?
    ensures FlattenFrom(plan.input, []) == Some(before) && before != []
    ensures plan.input2 == Scan(|before|) && steps == before + [Step(plan.kind, plan.on, plan.kind.Left?)]
  {
    before := FlattenFrom(plan.input, []).value;
    FlattenShape(plan.input, []);
    assert FlattenFrom(plan.input2, before).value == before + [BASE_STEP];
  }

  lemma {:induction false} PrefixFits(w: World, before: seq<Step>, steps: seq<Step>, where: Option<Node>)
    requires before <= steps && Fits(w, Written(steps, where))
    ensures Fits(w, Written(before, where)) && Written(before, where).stages <= Written(steps, where).stages
  {
    forall i | 0 <= i < |before|
      ensures StageFits(w, Written(before, where).stages[i])
    {
      assert StageFits(w, Written(steps, where).stages[i]);
    }
  }

  lemma {:induction false} FlattenedJoin(w: World, plan: Plan, before: seq<Step>, steps: seq<Step>, where: Option<Node>)
    requires plan.Join? && before != [] && plan.input2 == Scan(|before|)
    requires steps == before + [Step(plan.kind, plan.on, plan.kind.Left?)]
    requires Fits(w, Written(steps, where)) && Fits(w, Written(before, where))
    requires Written(before, where).stages <= Written(steps, where).stages
    requires EvalPlan(w, plan.input) == JoinedRows(w, Written(before, where), |before|)
    ensures EvalPlan(w, plan) == JoinedRows(w, Written(steps, where), |steps|)
  {
    hide JoinRows, Matches, OptConjuncts, AndChain, FilterRows, Fits, JoinedRows;
    var k := |before|;
    SamePrefix(w, Written(before, where), Written(steps, where), k);
    LastJoined(w, steps, where, k);
    SameJoinFor(w, plan.kind, plan.on, EvalPlan(w, plan.input), ScanFrom(w, k, 0));
  }

  /** The last join of the written pipeline brings in an unfiltered relation. */
  lemma {:induction false} LastJoined(w: World, steps: seq<Step>, where: Option<Node>, k: nat)
    requires Fits(w, Written(steps, where)) && 1 <= k < |steps|
    ensures k < |w.tables|
    ensures JoinedRows(w, Written(steps, where), k + 1) ==
            JoinRows(w, steps[k].kind, AndChain(OptConjuncts(steps[k].on)), JoinedRows(w, Written(steps, where), k), ScanFrom(w, k, 0))
  {
    assert StageFits(w, Written(steps, where).stages[k]);
    FilterNothing(w, ScanFrom(w, k, 0));
  }

  lemma {:induction false} SamePrefix(w: World, a: Pipeline, b: Pipeline, k: nat)
    requires Fits(w, a) && Fits(w, b) && 1 <= k <= |a.stages| && a.stages <= b.stages
    ensures JoinedRows(w, a, k) == JoinedRows(w, b, k)
  {
    if k > 1 {
      SamePrefix(w, a, b, k - 1);
    }
  }

  /** What the query returns: the FROM rows that satisfy WHERE. */
  function QueryRows(w: World, from: Plan, where: Option<Node>): seq<Row> {
    FilterRows(w, where, EvalPlan(w, from))
  }

  lemma {:induction false} WrittenRows(w: World, from: Plan, steps: seq<Step>, where: Option<Node>)
    requires FlattenFrom(from, []) == Some(steps) && Numbered(from, 0) && |steps| == |w.tables|
    ensures InOrder(w, Written(steps, where)) && StartsWithScan(Written(steps, where))
    ensures QueryRows(w, from, where) == RunAll(w, Written(steps, where))
  {
    var p := Written(steps, where);
    FlattenShape(from, []);
    FlattenedRows(w, from, steps, where);
    SameFilterFor(w, where, EvalPlan(w, from));
    PlanRunsPipeline(w, p);
    JoinPlanRows(w, p, |p.stages|);
    FilterNothing(w, JoinedRows(w, p, |p.stages|));
  }

  // ---- The conjunct list ----

  function LoadedOne(node: Node, fromWhere: bool, step: nat): Conjunct {
    Conjunct(node, Refs(node), Unresolved(node), fromWhere, step, Residual, 0)
  }

  function LoadedLeaves(leaves: seq<Node>, fromWhere: bool, step: nat): (loaded: seq<Conjunct>)
    ensures |loaded| == |leaves|
  {
    seq(|leaves|, i requires 0 <= i < |leaves| => LoadedOne(leaves[i], fromWhere, step))
  }

  function LoadedOn(steps: seq<Step>, k: nat): seq<Conjunct>
    requires k <= |steps|
  {
    if k <= 1 then [] else LoadedOn(steps, k - 1) + LoadedLeaves(OptConjuncts(steps[k - 1].on), false, k - 1)
  }

  /** WHERE conjuncts first, then every ON condition. */
  function Loaded(steps: seq<Step>, where: Option<Node>): seq<Conjunct> {
    LoadedLeaves(OptConjuncts(where), true, 0) + LoadedOn(steps, |steps|)
  }

  /** The ON leaves of one step, as conjuncts of the list cs. */
  ghost predicate IsOnConjunct(c: Conjunct, steps: seq<Step>) {
    && !c.fromWhere && 1 <= c.step < |steps|
    && c.node in OptConjuncts(steps[c.step].on)
    && c.mask == Refs(c.node) && c.unresolved == Unresolved(c.node)
  }

  ghost predicate IsWhereConjunct(c: Conjunct, where: Option<Node>) {
    && c.fromWhere && c.node in OptConjuncts(where)
    && c.mask == Refs(c.node) && c.unresolved == Unresolved(c.node)
  }

  lemma {:induction false} LoadedOnShape(steps: seq<Step>, k: nat)
    requires k <= |steps|
    ensures forall c <- LoadedOn(steps, k) :: IsOnConjunct(c, steps) && c.destination == Residual
    ensures forall s, n :: 1 <= s < k && n in OptConjuncts(steps[s].on) ==>
              exists c <- LoadedOn(steps, k) :: c.node == n && c.step == s && !c.fromWhere
  {
    if k > 1 {
      LoadedOnShape(steps, k - 1);
      var leaves := OptConjuncts(steps[k - 1].on);
      var last := LoadedLeaves(leaves, false, k - 1);
      forall s, n | 1 <= s < k && n in OptConjuncts(steps[s].on)
        ensures exists c <- LoadedOn(steps, k) :: c.node == n && c.step == s && !c.fromWhere
      {
        if s < k - 1 {
          var c :| c in LoadedOn(steps, k - 1) && c.node == n && c.step == s && !c.fromWhere;
          assert c in LoadedOn(steps, k);
        } else {
          var i :| 0 <= i < |leaves| && leaves[i] == n;
          assert last[i] in LoadedOn(steps, k);
        }
      }
    }
  }

  /** Every conjunct of the list is a leaf of the query, and every leaf is there. */
  lemma {:induction false} LoadedShape(steps: seq<Step>, where: Option<Node>)
    ensures forall c <- Loaded(steps, where) ::
              (IsWhereConjunct(c, where) || IsOnConjunct(c, steps)) && c.destination == Residual
    ensures forall n <- OptConjuncts(where) :: exists c <- Loaded(steps, where) :: c.node == n && c.fromWhere
    ensures forall s, n :: 1 <= s < |steps| && n in OptConjuncts(steps[s].on) ==>
              exists c <- Loaded(steps, where) :: c.node == n && c.step == s && !c.fromWhere
  {
    LoadedOnShape(steps, |steps|);
    var leaves := OptConjuncts(where);
    var first := LoadedLeaves(leaves, true, 0);
    forall n | n in leaves
      ensures exists c <- Loaded(steps, where) :: c.node == n && c.fromWhere
    {
      var i :| 0 <= i < |leaves| && leaves[i] == n;
      assert first[i] in Loaded(steps, where);
    }
    forall s, n | 1 <= s < |steps| && n in OptConjuncts(steps[s].on)
      ensures exists c <- Loaded(steps, where) :: c.node == n && c.step == s && !c.fromWhere
    {
      var c :| c in LoadedOn(steps, |steps|) && c.node == n && c.step == s && !c.fromWhere;
      assert c in Loaded(steps, where);
    }
  }

  // ---- Constant folding ----

  /** The value of a comparison between two literals, where it has one. */
  function FoldComparison(node: Node): Option<bool> {
    if !node.Binary? then None
    else if node.left.Numeric? && node.right.Numeric? then
      (if IsNumericComparison(node.op) then Some(NumbersCompare(node.op, node.left.value, node.right.value)) else None)
    else if node.left.Literal? && node.right.Literal? then
      (if IsEquality(node.op) then Some(node.left.text == node.right.text)
       else if node.op.Ne? then Some(node.left.text != node.right.text)
       else None)
    else None
  }

  /** A comparison of two numbers or two strings that is written out, and its value. */
  predicate FoldsTo(n: Node, value: bool) {
    n.Binary? &&
      if n.left.Numeric? && n.right.Numeric? then
        var a, b := n.left.value, n.right.value;
        match n.op
        case Eq => value == (a == b)
        case EqEq => value == (a == b)
        case Ne => value == (a != b)
        case Lt => value == (a < b)
        case Le => value == (a <= b)
        case Gt => value == (a > b)
        case Ge => value == (a >= b)
        case _ => false
      else
        n.left.Literal? && n.right.Literal? &&
        match n.op
        case Eq => value == (n.left.text == n.right.text)
        case EqEq => value == (n.left.text == n.right.text)
        case Ne => value == (n.left.text != n.right.text)
        case _ => false
  }

  /** Exactly these comparisons are folded. */
  lemma {:induction false} FoldComparisonIff(n: Node, value: bool)
    ensures FoldComparison(n) == Some(value) <==> FoldsTo(n, value)
  {
  }

  lemma {:induction false} FoldComparisonSound(w: World, node: Node, row: Row)
    requires FoldComparison(node).Some?
    ensures Eval(w, node, row) == ValueOf(OfBool(FoldComparison(node).value))
  {
    assert Eval(w, node.left, row) == (if node.left.Numeric? then Num(node.left.value) else Str(node.left.text));
    assert Eval(w, node.right, row) == (if node.right.Numeric? then Num(node.right.value) else Str(node.right.text));
  }

  function Folded(c: Conjunct): Conjunct {
    if FoldComparison(c.node) == Some(true) then c.(destination := Dropped) else c
  }

  predicate OnLeftJoin(steps: seq<Step>, c: Conjunct) {
    !c.fromWhere && c.step < |steps| && steps[c.step].nullSupplying
  }

  /** A false WHERE conjunct, or a false ON conjunct of a join that is not a left
      join, leaves no row. */
  predicate FoldsToEmpty(steps: seq<Step>, c: Conjunct) {
    FoldComparison(c.node) == Some(false) && !OnLeftJoin(steps, c)
  }

  // ---- Left join conversion ----

  predicate RejectedBy(c: Conjunct, rel: nat) {
    c.fromWhere && !c.unresolved && rel in c.mask && RejectsNull(c.node, rel)
  }

  function Converted(steps: seq<Step>, cs: seq<Conjunct>): (converted: seq<Step>)
    ensures |converted| == |steps|
  {
    seq(|steps|, k requires 0 <= k < |steps| =>
      if k >= 1 && exists c <- cs :: RejectedBy(c, k) then steps[k].(nullSupplying := false) else steps[k])
  }

  // ---- Destinations ----

  /** The highest relation below n that a mask holds, 0 when there is none. */
  function Highest(mask: set<nat>, n: nat): nat {
    if n == 0 then 0 else if n - 1 in mask then n - 1 else Highest(mask, n - 1)
  }

  predicate NullSupplying(steps: seq<Step>, rel: nat) {
    rel < |steps| && steps[rel].nullSupplying
  }

  function Destined(steps: seq<Step>, c: Conjunct): Conjunct {
    var touched := |c.mask|;
    var highest := Highest(c.mask, OPT_MAX_RELATIONS);
    if c.destination.Dropped? then c
    else if c.fromWhere then
      if c.unresolved || touched == 0 then c.(destination := Residual)
      else if touched == 1 then
        if highest > 0 && NullSupplying(steps, highest) then c.(destination := Residual)
        else c.(destination := Filter, target := highest)
      else if NullSupplying(steps, highest) then c.(destination := Residual)
      else c.(destination := OnClause, target := highest)
    else if !c.unresolved && touched == 0 then c.(destination := Filter, target := c.step)
    else if c.unresolved || touched > 1 || highest > c.step then c.(destination := OnClause, target := c.step)
    else if highest == c.step then c.(destination := Filter, target := highest)
    else if !(c.step < |steps| && steps[c.step].kind.Left?) && !(highest > 0 && NullSupplying(steps, highest)) then
      c.(destination := Filter, target := highest)
    else c.(destination := OnClause, target := c.step)
  }

  function AllDestined(steps: seq<Step>, cs: seq<Conjunct>): (destined: seq<Conjunct>)
    ensures |destined| == |cs|
  {
    seq(|cs|, i requires 0 <= i < |cs| => Destined(steps, cs[i]))
  }

  lemma {:induction false} HighestIsMember(mask: set<nat>, n: nat)
    requires exists r :: r in mask && r < n
    ensures Highest(mask, n) in mask && Highest(mask, n) < n
    ensures forall r <- mask :: r < n ==> r <= Highest(mask, n)
  {
    if n - 1 !in mask {
      HighestIsMember(mask, n - 1);
    }
  }

  lemma {:induction false} SingletonMask(mask: set<nat>, r: nat)
    requires |mask| == 1 && r in mask
    ensures mask == {r}
  {
    assert |mask - {r}| == 0;
  }

  predicate IsLast(mask: set<nat>, h: nat) {
    h in mask && forall r <- mask :: r <= h
  }

  /** The last relation is filled up with NULLs by a left join. */
  ghost predicate IsBlocked(steps: seq<Step>, mask: set<nat>) {
    exists h: nat :: h > 0 && IsLast(mask, h) && NullSupplying(steps, h)
  }

  /** An ON conjunct about one relation, or about none, can be tested on that one, or
      on the joined one, before the join: on the joined relation always, on an earlier
      one only when neither the join nor an earlier one fills rows up. */
  predicate OnCanFilter(steps: seq<Step>, c: Conjunct, r: nat) {
    if c.unresolved then false
    else if r == c.step then c.mask <= {r}
    else r < c.step && c.mask == {r} && !(c.step < |steps| && steps[c.step].kind.Left?) && !(r > 0 && NullSupplying(steps, r))
  }

  /** d is c with its place: a WHERE conjunct stays behind all joins if and only if it
      cannot be tied to relations or its last one is filled up; otherwise it goes to
      that one, as a filter when it reads no other. */
  ghost predicate HasItsPlace(steps: seq<Step>, c: Conjunct, d: Conjunct) {
    && d == c.(destination := d.destination, target := d.target)
    && if c.destination.Dropped? then d == c
       else if c.fromWhere then
         && (d.destination.Residual? <==> c.unresolved || c.mask == {} || IsBlocked(steps, c.mask))
         && (d.destination.Residual? || (IsLast(c.mask, d.target) && d.destination == if c.mask == {d.target} then Filter else OnClause))
       else
         && (d.destination.Filter? <==> exists r :: OnCanFilter(steps, c, r))
         && (if d.destination.Filter? then OnCanFilter(steps, c, d.target) else d.destination.OnClause? && d.target == c.step)
  }

  lemma {:induction false} DestinedHasItsPlace(steps: seq<Step>, c: Conjunct)
    requires forall r <- c.mask :: r < OPT_MAX_RELATIONS
    ensures HasItsPlace(steps, c, Destined(steps, c))
  {
    if c.mask == {} {
      assert !IsBlocked(steps, c.mask);
    } else {
      var h := Highest(c.mask, OPT_MAX_RELATIONS);
      var r :| r in c.mask;
      HighestIsMember(c.mask, OPT_MAX_RELATIONS);
      hide Highest;
      BlockedByLast(steps, c.mask, h);
      if |c.mask| == 1 {
        SingletonMask(c.mask, h);
        assert OnCanFilter(steps, c, h) || OnCanFilter(steps, c, c.step) || forall r: nat :: !OnCanFilter(steps, c, r);
      } else {
        TwoMembers(c.mask, h);
      }
    }
  }

  lemma {:induction false} BlockedByLast(steps: seq<Step>, mask: set<nat>, h: nat)
    requires IsLast(mask, h)
    ensures IsBlocked(steps, mask) <==> h > 0 && NullSupplying(steps, h)
  {
    if k: nat :| k > 0 && IsLast(mask, k) && NullSupplying(steps, k) {
      assert k <= h <= k;
    }
  }

  lemma {:induction false} TwoMembers(mask: set<nat>, h: nat)
    requires |mask| > 1 && IsLast(mask, h)
    ensures h > 0 && forall r :: mask != {r}
  {
    var rest := mask - {h};
    assert |rest| == |mask| - 1;
    var other :| other in rest;
    assert other in mask && other < h;
    forall r
      ensures mask != {r}
    {
      assert |{r}| == 1;
    }
  }

  // ---- The rewritten pipeline ----

  /** The nodes of the conjuncts that go to one place, in list order. */
  function NodesFor(cs: seq<Conjunct>, destination: Destination, target: nat): seq<Node> {
    if cs == [] then []
    else
      (if cs[0].destination == destination && (destination.Residual? || cs[0].target == target) then [cs[0].node] else [])
      + NodesFor(cs[1..], destination, target)
  }

  lemma {:induction false} NodesForMembers(cs: seq<Conjunct>, destination: Destination, target: nat)
    ensures forall n :: n in NodesFor(cs, destination, target) <==>
              exists c <- cs :: c.node == n && c.destination == destination && (destination.Residual? || c.target == target)
  {
    if cs != [] {
      NodesForMembers(cs[1..], destination, target);
      assert cs == [cs[0]] + cs[1..];
    }
  }

  function FinalJoinType(step: Step, hasConditions: bool): JoinType {
    if step.nullSupplying then Left
    else if step.kind.Cross? && !hasConditions then Cross
    else Inner
  }

  function RewrittenStage(steps: seq<Step>, cs: seq<Conjunct>, k: nat): Stage
    requires k < |steps|
  {
    var on := NodesFor(cs, OnClause, k);
    Stage(k, FinalJoinType(steps[k], on != []), NodesFor(cs, Filter, k), on)
  }

  function RewrittenStages(steps: seq<Step>, cs: seq<Conjunct>): (stages: seq<Stage>)
    ensures |stages| == |steps|
  {
    seq(|steps|, k requires 0 <= k < |steps| => RewrittenStage(steps, cs, k))
  }

  function Rewritten(steps: seq<Step>, cs: seq<Conjunct>): Pipeline {
    Pipeline(RewrittenStages(steps, cs), NodesFor(cs, Residual, 0))
  }
}
