/** The passes over the conjunct list, which update the list and the join steps
    in place. */
module RewritePasses {
  import opened Predicates
  import opened Conjuncts

  /** Appends the leaves of the topmost ANDs. The count goes on when there is no
      room left to store them. */
  method CollectConjuncts(root: Node, leaves: array<Node>, count: nat) returns (newCount: nat)
    modifies leaves
    ensures newCount == count + |LeavesOf(root)|
    ensures newCount <= leaves.Length ==> leaves[..newCount] == old(leaves[..count]) + LeavesOf(root)
    decreases root
  {
    if root.Binary? && root.op.And? {
      var afterLeft := CollectConjuncts(root.left, leaves, count);
      newCount := CollectConjuncts(root.right, leaves, afterLeft);
      return;
    }
    if count < leaves.Length {
      leaves[count] := root;
    }
    newCount := count + 1;
  }

  /** Appends conjuncts for the given leaves. */
  method StoreLeaves(leaves: array<Node>, leafCount: nat, fromWhere: bool, step: nat, conjuncts: array<Conjunct>, count: nat)
    returns (newCount: nat)
    requires leafCount <= leaves.Length && count + leafCount <= OPT_MAX_CONJUNCTS && conjuncts.Length == OPT_CONJUNCT_CAPACITY
    modifies conjuncts
    ensures newCount == count + leafCount
    ensures conjuncts[..newCount] == old(conjuncts[..count]) + LoadedLeaves(leaves[..leafCount], fromWhere, step)
  {
    newCount := count;
    for leaf := 0 to leafCount
      invariant newCount == count + leaf
      invariant conjuncts[..newCount] == old(conjuncts[..count]) + LoadedLeaves(leaves[..leaf], fromWhere, step)
    {
      conjuncts[newCount] := LoadedOne(leaves[leaf], fromWhere, step);
      newCount := newCount + 1;
      assert leaves[..leaf + 1] == leaves[..leaf] + [leaves[leaf]];
    }
  }

  lemma {:induction false} LoadedOnGrows(steps: seq<Step>, k: nat, n: nat)
    requires k <= n <= |steps|
    ensures |LoadedOn(steps, k)| <= |LoadedOn(steps, n)|
  {
    if k < n {
      LoadedOnGrows(steps, k, n - 1);
    }
  }

  /** Appends the conjuncts of a condition, when there is room for them. */
  method LoadCondition(condition: Option<Node>, fromWhere: bool, step: nat, conjuncts: array<Conjunct>, count: nat)
    returns (newCount: nat, ok: bool)
    requires conjuncts.Length == OPT_CONJUNCT_CAPACITY && count <= OPT_MAX_CONJUNCTS
    modifies conjuncts
    ensures ok <==> count + |OptConjuncts(condition)| <= OPT_MAX_CONJUNCTS
    ensures ok ==> newCount <= OPT_MAX_CONJUNCTS
    ensures ok ==> conjuncts[..newCount] == old(conjuncts[..count]) + LoadedLeaves(OptConjuncts(condition), fromWhere, step)
  {
    if condition.None? {
      return count, true;
    }
    var leaves := new Node[OPT_MAX_CONJUNCTS](_ => Foreign(""));
    var leafCount := CollectConjuncts(condition.value, leaves, 0);
    if count + leafCount > OPT_MAX_CONJUNCTS {
      return count, false;
    }
    ok := true;
    assert leaves[..leafCount] == LeavesOf(condition.value);
    newCount := StoreLeaves(leaves, leafCount, fromWhere, step, conjuncts, count);
  }

  /** WHERE conjuncts first, then every ON condition; 0 when there are more than 64. */
  method LoadConjuncts(steps: seq<Step>, where: Option<Node>, conjuncts: array<Conjunct>) returns (count: nat)
    requires conjuncts.Length == OPT_CONJUNCT_CAPACITY && steps != []
    modifies conjuncts
    ensures count <= OPT_MAX_CONJUNCTS
    ensures if |Loaded(steps, where)| <= OPT_MAX_CONJUNCTS then conjuncts[..count] == Loaded(steps, where) else count == 0
  {
    var whereCount, ok := LoadCondition(where, true, 0, conjuncts, 0);
    if !ok {
      return 0;
    }
    assert conjuncts[..whereCount] == LoadedLeaves(OptConjuncts(where), true, 0);
    count := LoadOnConditions(steps, conjuncts, whereCount);
  }

  /** The ON condition of one step; it does not fit only when all do not. */
  method LoadOnCondition(steps: seq<Step>, step: nat, conjuncts: array<Conjunct>, count: nat, ghost first: nat, ghost before: seq<Conjunct>)
    returns (newCount: nat, ok: bool)
    requires conjuncts.Length == OPT_CONJUNCT_CAPACITY && 1 <= step < |steps| && count <= OPT_MAX_CONJUNCTS && |before| == first
    requires conjuncts[..count] == before + LoadedOn(steps, step)
    modifies conjuncts
    ensures ok ==> newCount <= OPT_MAX_CONJUNCTS && conjuncts[..newCount] == before + LoadedOn(steps, step + 1)
    ensures !ok ==> first + |LoadedOn(steps, |steps|)| > OPT_MAX_CONJUNCTS
  {
    newCount, ok := LoadCondition(steps[step].on, false, step, conjuncts, count);
    LoadedOnStep(steps, step, before);
  }

  lemma {:induction false} LoadedOnStep(steps: seq<Step>, step: nat, before: seq<Conjunct>)
    requires 1 <= step < |steps|
    ensures var more := LoadedLeaves(OptConjuncts(steps[step].on), false, step);
            (before + LoadedOn(steps, step)) + more == before + LoadedOn(steps, step + 1)
    ensures |LoadedOn(steps, step)| + |OptConjuncts(steps[step].on)| <= |LoadedOn(steps, |steps|)|
  {
    var more := LoadedLeaves(OptConjuncts(steps[step].on), false, step);
    assert LoadedOn(steps, step + 1) == LoadedOn(steps, step) + more;
    hide *;
    ConjunctsAssociate(before, LoadedOn(steps, step), more);
    LoadedOnGrows(steps, step + 1, |steps|);
  }

  lemma {:induction false} ConjunctsAssociate(a: seq<Conjunct>, b: seq<Conjunct>, c: seq<Conjunct>)
    ensures (a + b) + c == a + (b + c)
  {
  }

  method LoadOnConditions(steps: seq<Step>, conjuncts: array<Conjunct>, first: nat) returns (count: nat)
    requires conjuncts.Length == OPT_CONJUNCT_CAPACITY && steps != [] && first <= OPT_MAX_CONJUNCTS
    modifies conjuncts
    ensures count <= OPT_MAX_CONJUNCTS
    ensures if first + |LoadedOn(steps, |steps|)| <= OPT_MAX_CONJUNCTS
            then conjuncts[..count] == old(conjuncts[..first]) + LoadedOn(steps, |steps|)
            else count == 0
  {
    ghost var before := conjuncts[..first];
    count := first;
    for step := 1 to |steps|
      invariant count <= OPT_MAX_CONJUNCTS
      invariant conjuncts[..count] == before + LoadedOn(steps, step)
    {
      var newCount, ok := LoadOnCondition(steps, step, conjuncts, count, first, before);
      if !ok {
        return 0;
      }
      count := newCount;
    }
  }

  function FoldedAll(cs: seq<Conjunct>): (folded: seq<Conjunct>)
    ensures |folded| == |cs|
  {
    seq(|cs|, i requires 0 <= i < |cs| => Folded(cs[i]))
  }

  /** Drops what is always true and reports what leaves no row. */
  method FoldConstants(steps: seq<Step>, conjuncts: array<Conjunct>, count: nat) returns (alwaysEmpty: bool)
    requires count <= conjuncts.Length
    modifies conjuncts
    ensures conjuncts[..count] == FoldedAll(old(conjuncts[..count]))
    ensures alwaysEmpty <==> exists i :: 0 <= i < count && FoldsToEmpty(steps, old(conjuncts[..])[i])
  {
    alwaysEmpty := false;
    ghost var before := conjuncts[..];
    for index := 0 to count
      invariant alwaysEmpty <==> exists i :: 0 <= i < index && FoldsToEmpty(steps, before[i])
      invariant forall i :: 0 <= i < index ==> conjuncts[i] == Folded(before[i])
      invariant forall i :: index <= i < conjuncts.Length ==> conjuncts[i] == before[i]
    {
      var result := FoldComparison(conjuncts[index].node);
      if result == Some(true) {
        conjuncts[index] := conjuncts[index].(destination := Dropped);
      } else if result == Some(false) {
        if !OnLeftJoin(steps, conjuncts[index]) {
          alwaysEmpty := true;
        }
      }
    }
  }

  /** The steps after the first n conjuncts, the last one up to relation r. */
  ghost predicate ConvertedUpTo(before: seq<Step>, cs: seq<Conjunct>, now: seq<Step>, n: nat, r: nat)
    requires n <= |cs|
  {
    && |now| == |before|
    && forall k :: 0 <= k < |before| ==>
         now[k] == if k >= 1 && exists i :: 0 <= i < n && RejectedBy(cs[i], k) && (i < n - 1 || k < r)
                   then before[k].(nullSupplying := false) else before[k]
  }

  lemma {:induction false} ConvertedAtTheEnd(before: seq<Step>, cs: seq<Conjunct>, now: seq<Step>)
    requires ConvertedUpTo(before, cs, now, |cs|, |before|)
    ensures now == Converted(before, cs)
  {
    forall k | 0 <= k < |before|
      ensures now[k] == Converted(before, cs)[k]
    {
      assert (exists c <- cs :: RejectedBy(c, k)) <==> exists i :: 0 <= i < |cs| && RejectedBy(cs[i], k);
    }
  }

  /** A WHERE condition that rejects NULL makes the left join an inner join. */
  method ConvertLeftJoins(steps: array<Step>, cs: seq<Conjunct>)
    modifies steps
    ensures steps[..] == Converted(old(steps[..]), cs)
  {
    hide RejectsNull;
    ghost var before := steps[..];
    for index := 0 to |cs|
      invariant ConvertedUpTo(before, cs, steps[..], index, steps.Length)
    {
      var c := cs[index];
      if c.fromWhere && !c.unresolved && steps.Length > 1 {
        for relation := 1 to steps.Length
          invariant ConvertedUpTo(before, cs, steps[..], index + 1, relation)
        {
          if relation in c.mask && steps[relation].nullSupplying && RejectsNull(c.node, relation) {
            steps[relation] := steps[relation].(nullSupplying := false);
          }
        }
      }
    }
    ConvertedAtTheEnd(before, cs, steps[..]);
  }

  method AssignDestinations(steps: seq<Step>, conjuncts: array<Conjunct>, count: nat)
    requires count <= conjuncts.Length
    modifies conjuncts
    ensures conjuncts[..count] == AllDestined(steps, old(conjuncts[..count]))
    ensures forall i :: 0 <= i < count && (forall r <- old(conjuncts[i]).mask :: r < OPT_MAX_RELATIONS) ==>
              HasItsPlace(steps, old(conjuncts[..])[i], conjuncts[i])
    ensures conjuncts[count..] == old(conjuncts[count..])
  {
    ghost var before := conjuncts[..];
    for index := 0 to count
      invariant forall i :: 0 <= i < index ==> conjuncts[i] == Destined(steps, before[i])
      invariant forall i :: index <= i < conjuncts.Length ==> conjuncts[i] == before[i]
    {
      conjuncts[index] := Destined(steps, conjuncts[index]);
    }
    forall i | 0 <= i < count && forall r <- before[i].mask :: r < OPT_MAX_RELATIONS
      ensures HasItsPlace(steps, before[i], conjuncts[i])
    {
      DestinedHasItsPlace(steps, before[i]);
    }
  }
}
