/**
 * LSLControlStatementNode: an if / else-if / else chain. The chain has a return path when
 * every branch has one and an else branch exists; its constant jump is the one jump every
 * branch is certain to take, found by intersecting the branches' constant-jump sets.
 */
module ControlStatements {
  import opened Wrappers
  import LslTypes

  /** A label statement, known by its node identity, its name and its ScopeId. */
  datatype LabelTarget = LabelTarget(node: nat, labelName: string, scopeId: nat)

  /** A jump statement, known by its node identity and the label it jumps to. */
  datatype JumpStatement = JumpStatement(node: nat, jumpTarget: LabelTarget)

  /**
   * LSLConstantJumpDescription: the jump that determines the control flow, and the statement
   * through which it is taken (`null` when that is the jump itself).
   */
  datatype JumpDescription = JumpDescription(determiningJump: JumpStatement, effectiveJumpStatement: object?)

  /** What JumpCmp compares: the target label node and the label's ScopeId. */
  type JumpKey = (nat, nat)

  function KeyOf(j: JumpDescription): JumpKey {
    (j.determiningJump.jumpTarget.node, j.determiningJump.jumpTarget.scopeId)
  }

  /** JumpCmp.Equals. */
  predicate JumpEquals(x: JumpDescription, y: JumpDescription) {
    x.determiningJump.jumpTarget.node == y.determiningJump.jumpTarget.node
    && x.determiningJump.jumpTarget.scopeId == y.determiningJump.jumpTarget.scopeId
  }

  lemma JumpEqualsIsKeyEquality(x: JumpDescription, y: JumpDescription)
    ensures JumpEquals(x, y) <==> KeyOf(x) == KeyOf(y)
  {
  }

  /** The keys of a sequence of jumps: the contents of a HashSet built over it with JumpCmp. */
  function Keys(js: seq<JumpDescription>): set<JumpKey> {
    set a | 0 <= a < |js| :: KeyOf(js[a])
  }

  predicate DistinctKeys(js: seq<JumpDescription>) {
    forall a, b :: 0 <= a < b < |js| ==> KeyOf(js[a]) != KeyOf(js[b])
  }

  lemma KeysAppend(acc: seq<JumpDescription>, x: JumpDescription)
    ensures Keys(acc + [x]) == Keys(acc) + {KeyOf(x)}
    ensures DistinctKeys(acc) && KeyOf(x) !in Keys(acc) ==> DistinctKeys(acc + [x])
  {
    var s := acc + [x];
    assert forall a :: 0 <= a < |acc| ==> s[a] == acc[a];
    assert s[|acc|] == x;
    if DistinctKeys(acc) && KeyOf(x) !in Keys(acc) {
      forall a, b | 0 <= a < b < |s|
        ensures KeyOf(s[a]) != KeyOf(s[b])
      {
        if b == |acc| {
          assert KeyOf(acc[a]) in Keys(acc);
        }
      }
    }
  }

  lemma KeysFront(js: seq<JumpDescription>)
    requires js != []
    ensures Keys(js) == {KeyOf(js[0])} + Keys(js[1..])
  {
    forall k | k in Keys(js)
      ensures k in {KeyOf(js[0])} + Keys(js[1..])
    {
      var a :| 0 <= a < |js| && KeyOf(js[a]) == k;
      if a > 0 {
        assert js[1..][a - 1] == js[a];
      }
    }
    forall k | k in Keys(js[1..])
      ensures k in Keys(js)
    {
      var a :| 0 <= a < |js[1..]| && KeyOf(js[1..][a]) == k;
      assert js[a + 1] == js[1..][a];
    }
  }

  /** Adding `js` to a HashSet holding `acc`: an element whose key is already present is skipped. */
  function AddAll(acc: seq<JumpDescription>, js: seq<JumpDescription>): (r: seq<JumpDescription>)
    requires DistinctKeys(acc)
    ensures DistinctKeys(r)
    ensures Keys(r) == Keys(acc) + Keys(js)
    ensures forall a :: 0 <= a < |r| ==> r[a] in acc || r[a] in js
    decreases |js|
  {
    if js == [] then acc
    else
      var acc' := if KeyOf(js[0]) in Keys(acc) then acc else acc + [js[0]];
      KeysAppend(acc, js[0]);
      KeysFront(js);
      AddAll(acc', js[1..])
  }

  /** One step of KeepKeys: the first element is kept or dropped on its own key. */
  lemma KeepKeysFront(js: seq<JumpDescription>, rest: seq<JumpDescription>, keys: set<JumpKey>)
    requires js != []
    requires forall a :: 0 <= a < |rest| ==> rest[a] in js[1..]
    requires DistinctKeys(js[1..]) ==> DistinctKeys(rest)
    requires Keys(rest) == Keys(js[1..]) * keys
    ensures Keys(js) == {KeyOf(js[0])} + Keys(js[1..])
    ensures KeyOf(js[0]) in keys ==>
              && Keys([js[0]] + rest) == Keys(js) * keys
              && (DistinctKeys(js) ==> DistinctKeys([js[0]] + rest))
    ensures KeyOf(js[0]) !in keys ==> Keys(rest) == Keys(js) * keys && (DistinctKeys(js) ==> DistinctKeys(rest))
  {
    KeysFront(js);
    var tail := js[1..];
    if DistinctKeys(js) {
      assert forall a, b :: 0 <= a < b < |tail| ==> tail[a] == js[a + 1] && tail[b] == js[b + 1];
      assert DistinctKeys(tail);
      assert KeyOf(js[0]) !in Keys(tail);
    }
    if KeyOf(js[0]) in keys {
      var r := [js[0]] + rest;
      assert r[1..] == rest;
      KeysFront(r);
      if DistinctKeys(js) {
        forall a, b | 0 <= a < b < |r|
          ensures KeyOf(r[a]) != KeyOf(r[b])
        {
          assert r[b] == rest[b - 1];
          if a == 0 {
            assert KeyOf(r[b]) in Keys(rest);
          } else {
            assert r[a] == rest[a - 1];
          }
        }
      }
    }
  }

  /** IntersectWith: keep the elements whose key the other set holds. */
  function KeepKeys(js: seq<JumpDescription>, keys: set<JumpKey>): (r: seq<JumpDescription>)
    ensures forall a :: 0 <= a < |r| ==> r[a] in js && KeyOf(r[a]) in keys
    ensures forall a :: 0 <= a < |js| && KeyOf(js[a]) in keys ==> js[a] in r
    ensures DistinctKeys(js) ==> DistinctKeys(r)
    ensures Keys(r) == Keys(js) * keys
    decreases |js|
  {
    if js == [] then []
    else
      var rest := KeepKeys(js[1..], keys);
      assert js == [js[0]] + js[1..];
      KeepKeysFront(js, rest, keys);
      if KeyOf(js[0]) in keys then [js[0]] + rest else rest
  }

  /** Intersecting in turn with the jump sets of each branch in `branches`. */
  function IntersectAll(candidates: seq<JumpDescription>, branches: seq<seq<JumpDescription>>): seq<JumpDescription>
    decreases |branches|
  {
    if branches == [] then candidates
    else IntersectAll(KeepKeys(candidates, Keys(branches[0])), branches[1..])
  }

  /** The jump keys every one of the given jump sets holds. */
  predicate InEvery(k: JumpKey, branches: seq<seq<JumpDescription>>) {
    forall b :: 0 <= b < |branches| ==> k in Keys(branches[b])
  }

  /** The candidates after intersecting are those whose key every branch holds. */
  lemma {:induction false} IntersectAllKeys(candidates: seq<JumpDescription>, branches: seq<seq<JumpDescription>>)
    ensures forall j :: j in IntersectAll(candidates, branches) <==> j in candidates && InEvery(KeyOf(j), branches)
    ensures DistinctKeys(candidates) ==> DistinctKeys(IntersectAll(candidates, branches))
    ensures forall a :: 0 <= a < |IntersectAll(candidates, branches)| ==>
              IntersectAll(candidates, branches)[a] in candidates
              && InEvery(KeyOf(IntersectAll(candidates, branches)[a]), branches)
    decreases |branches|
  {
    if branches != [] {
      IntersectAllKeys(KeepKeys(candidates, Keys(branches[0])), branches[1..]);
      forall k: JumpKey
        ensures InEvery(k, branches) <==> k in Keys(branches[0]) && InEvery(k, branches[1..])
      {
        if k in Keys(branches[0]) && InEvery(k, branches[1..]) {
          forall b | 0 <= b < |branches|
            ensures k in Keys(branches[b])
          {
            if b > 0 {
              assert branches[b] == branches[1..][b - 1];
            }
          }
        }
      }
    }
  }

  /** GetConstantJump's outcomes: no constant jump, exactly one, or more than one (SingleOrDefault raises). */
  datatype ConstantJumpError = MoreThanOneJump

  /**
   * GetConstantJump as a function of the branches' jump sets: `null` when there is neither an
   * else-if nor an else; otherwise the if branch's jumps, intersected with every other
   * branch's, must hold at most one jump, which is returned with `statement` as the
   * statement it is taken through.
   */
  function ConstantJump(ifJumps: seq<JumpDescription>, elseIfJumps: seq<seq<JumpDescription>>,
                        elseJumps: Option<seq<JumpDescription>>, statement: object)
    : Result<Option<JumpDescription>, ConstantJumpError>
  {
    if elseIfJumps == [] && elseJumps.None? then Success(None)
    else
      var common := Common(ifJumps, OtherBranches(elseIfJumps, elseJumps));
      if |common| == 0 then Success(None)
      else if |common| == 1 then Success(Some(JumpDescription(common[0].determiningJump, statement)))
      else Failure(MoreThanOneJump)
  }

  /** The branches other than the if branch, as ConstantJump intersects them. */
  function OtherBranches(elseIfJumps: seq<seq<JumpDescription>>, elseJumps: Option<seq<JumpDescription>>)
    : seq<seq<JumpDescription>>
  {
    elseIfJumps + (if elseJumps.Some? then [elseJumps.value] else [])
  }

  /** The if branch's jumps, collected into a HashSet and intersected with every other branch's. */
  function Common(ifJumps: seq<JumpDescription>, others: seq<seq<JumpDescription>>): seq<JumpDescription> {
    IntersectAll(AddAll([], ifJumps), others)
  }

  /** The jumps left are the if branch's jumps every other branch shares, one per label. */
  lemma CommonFacts(ifJumps: seq<JumpDescription>, others: seq<seq<JumpDescription>>)
    ensures var common := Common(ifJumps, others);
            && DistinctKeys(common)
            && (forall a :: 0 <= a < |common| ==> common[a] in ifJumps && InEvery(KeyOf(common[a]), others))
            && (forall j :: j in ifJumps && InEvery(KeyOf(j), others) ==>
                  exists a :: 0 <= a < |common| && KeyOf(common[a]) == KeyOf(j))
  {
    var base := AddAll([], ifJumps);
    IntersectAllKeys(base, others);
    CommonFromIf(ifJumps, others);
    forall j | j in ifJumps && InEvery(KeyOf(j), others)
      ensures exists a :: 0 <= a < |Common(ifJumps, others)| && KeyOf(Common(ifJumps, others)[a]) == KeyOf(j)
    {
      SharedJumpKept(ifJumps, others, j);
    }
  }

  lemma CommonFromIf(ifJumps: seq<JumpDescription>, others: seq<seq<JumpDescription>>)
    ensures forall a :: 0 <= a < |Common(ifJumps, others)| ==> Common(ifJumps, others)[a] in ifJumps
  {
    var base := AddAll([], ifJumps);
    var common := Common(ifJumps, others);
    IntersectAllKeys(base, others);
    forall a | 0 <= a < |common|
      ensures common[a] in ifJumps
    {
      assert common[a] in base;
      var b :| 0 <= b < |base| && base[b] == common[a];
      assert base[b] in [] || base[b] in ifJumps;
    }
  }

  lemma SharedJumpKept(ifJumps: seq<JumpDescription>, others: seq<seq<JumpDescription>>, j: JumpDescription)
    requires j in ifJumps && InEvery(KeyOf(j), others)
    ensures exists a :: 0 <= a < |Common(ifJumps, others)| && KeyOf(Common(ifJumps, others)[a]) == KeyOf(j)
  {
    var base := AddAll([], ifJumps);
    var common := Common(ifJumps, others);
    var i :| 0 <= i < |ifJumps| && ifJumps[i] == j;
    assert KeyOf(j) in Keys(ifJumps);
    assert KeyOf(j) in Keys(base);
    var b :| 0 <= b < |base| && KeyOf(base[b]) == KeyOf(j);
    IntersectAllKeys(base, others);
    assert base[b] in common;
    var a :| 0 <= a < |common| && common[a] == base[b];
    assert KeyOf(common[a]) == KeyOf(j);
  }

  /**
   * The constant jump is taken on every branch: it is one of the if branch's jumps, every
   * other branch holds a jump to the same label, and no other label is common to all. When
   * the result is `null` with other branches present, no label is common to all branches.
   */
  lemma ConstantJumpIsCommon(ifJumps: seq<JumpDescription>, elseIfJumps: seq<seq<JumpDescription>>,
                             elseJumps: Option<seq<JumpDescription>>, statement: object)
    ensures elseIfJumps == [] && elseJumps.None? ==> ConstantJump(ifJumps, elseIfJumps, elseJumps, statement) == Success(None)
    ensures var r := ConstantJump(ifJumps, elseIfJumps, elseJumps, statement);
            r.Success? && r.value.Some? ==>
              && r.value.value.effectiveJumpStatement == statement
              && (exists j :: j in ifJumps && j.determiningJump == r.value.value.determiningJump)
              && InEvery(KeyOf(r.value.value), OtherBranches(elseIfJumps, elseJumps))
              && forall j :: j in ifJumps && InEvery(KeyOf(j), OtherBranches(elseIfJumps, elseJumps))
                             ==> KeyOf(j) == KeyOf(r.value.value)
    ensures var r := ConstantJump(ifJumps, elseIfJumps, elseJumps, statement);
            r == Success(None) && (elseIfJumps != [] || elseJumps.Some?) ==>
              forall j :: j in ifJumps ==> !InEvery(KeyOf(j), OtherBranches(elseIfJumps, elseJumps))
    ensures var r := ConstantJump(ifJumps, elseIfJumps, elseJumps, statement);
            r.Failure? ==>
              exists a, b :: a in ifJumps && b in ifJumps && KeyOf(a) != KeyOf(b)
                             && InEvery(KeyOf(a), OtherBranches(elseIfJumps, elseJumps))
                             && InEvery(KeyOf(b), OtherBranches(elseIfJumps, elseJumps))
  {
    var others := OtherBranches(elseIfJumps, elseJumps);
    var common := Common(ifJumps, others);
    CommonFacts(ifJumps, others);
    if |common| >= 2 {
      assert KeyOf(common[0]) != KeyOf(common[1]);
      assert common[0] in ifJumps && common[1] in ifJumps;
    }
    if |common| == 1 {
      assert common[0] in ifJumps;
    }
  }

  /** `new HashSet<JumpDescription>(jumps, JumpCmp)`: each jump added in turn, repeats of a key skipped. */
  method HashSetOf(jumps: seq<JumpDescription>) returns (r: seq<JumpDescription>)
    ensures r == AddAll([], jumps)
  {
    r := [];
    for n := 0 to |jumps|
      invariant DistinctKeys(r)
      invariant AddAll([], jumps) == AddAll(r, jumps[n..])
    {
      assert jumps[n..][0] == jumps[n] && jumps[n..][1..] == jumps[n + 1..];
      KeysAppend(r, jumps[n]);
      ghost var next := if KeyOf(jumps[n]) in Keys(r) then r else r + [jumps[n]];
      assert AddAll(r, jumps[n..]) == AddAll(next, jumps[n + 1..]);
      if KeyOf(jumps[n]) !in Keys(r) {
        r := r + [jumps[n]];
      }
    }
  }

  /** `IntersectWith` applied with the jumps of each branch in turn. */
  method IntersectWithEach(candidates: seq<JumpDescription>, branches: seq<seq<JumpDescription>>)
    returns (r: seq<JumpDescription>)
    ensures r == IntersectAll(candidates, branches)
  {
    r := candidates;
    for n := 0 to |branches|
      invariant IntersectAll(candidates, branches) == IntersectAll(r, branches[n..])
    {
      assert branches[n..][1..] == branches[n + 1..];
      r := KeepKeys(r, Keys(branches[n]));
    }
  }

  // ------------------------------------------------------------ The nodes

  /** An if, else-if or else branch: the parts of it the chain consults. */
  class BranchNode {
    var parent: object?
    var hasReturnPath: bool
    var constantJumps: seq<JumpDescription>

    constructor (hasReturnPath: bool, constantJumps: seq<JumpDescription>)
      ensures parent == null && this.hasReturnPath == hasReturnPath && this.constantJumps == constantJumps
    {
      parent := null;
      this.hasReturnPath := hasReturnPath;
      this.constantJumps := constantJumps;
    }
  }

  class ControlStatementNode {
    var ifStatement: BranchNode?
    var elseIfStatements: seq<BranchNode>
    var elseStatement: BranchNode?
    var hasErrors: bool

    /** GetError: an error node with no branches. */
    constructor Error()
      ensures ifStatement == null && elseIfStatements == [] && elseStatement == null && hasErrors
    {
      ifStatement := null;
      elseIfStatements := [];
      elseStatement := null;
      hasErrors := true;
    }

    /** The (context, isSingleBlockStatement) constructor the others chain to. */
    constructor Empty()
      ensures ifStatement == null && elseIfStatements == [] && elseStatement == null && !hasErrors
    {
      ifStatement := null;
      elseIfStatements := [];
      elseStatement := null;
      hasErrors := false;
    }

    /**
     * The constructors taking branches: the if branch, then each else-if in order through
     * AddElseIfStatement, then the else branch, each checked for null as it is reached.
     * A branch handed over before the failing check has its Parent set already.
     */
    static method Create(ifStatement: BranchNode?, elseIfStatements: seq<BranchNode?>, elseStatement: Option<BranchNode?>)
      returns (r: Result<ControlStatementNode, LslTypes.ArgumentError>)
      modifies if ifStatement != null then {ifStatement} else {}
      modifies set k | 0 <= k < |elseIfStatements| && elseIfStatements[k] != null :: elseIfStatements[k]
      modifies if elseStatement.Some? && elseStatement.value != null then {elseStatement.value} else {}
      ensures ifStatement == null ==> r == Failure(LslTypes.ArgumentNull("ifStatement"))
      ensures ifStatement != null && null in elseIfStatements ==> r == Failure(LslTypes.ArgumentNull("node"))
      ensures ifStatement != null && null !in elseIfStatements && elseStatement == Some(null)
              ==> r == Failure(LslTypes.ArgumentNull("elseStatement"))
      ensures r.Success? <==> ifStatement != null && null !in elseIfStatements && elseStatement != Some(null)
      ensures r.Success? ==>
                && fresh(r.value)
                && r.value.ifStatement == ifStatement && ifStatement.parent == r.value
                && |r.value.elseIfStatements| == |elseIfStatements|
                && (forall k :: 0 <= k < |elseIfStatements| ==> r.value.elseIfStatements[k] == elseIfStatements[k])
                && (forall k :: 0 <= k < |elseIfStatements| ==> elseIfStatements[k].parent == r.value)
                && (elseStatement.None? ==> r.value.elseStatement == null)
                && (elseStatement.Some? ==> r.value.elseStatement == elseStatement.value && elseStatement.value.parent == r.value)
                && !r.value.hasErrors
      ensures ifStatement != null ==>
                ifStatement.hasReturnPath == old(ifStatement.hasReturnPath)
                && ifStatement.constantJumps == old(ifStatement.constantJumps)
      ensures forall k :: 0 <= k < |elseIfStatements| && elseIfStatements[k] != null ==>
                elseIfStatements[k].hasReturnPath == old(elseIfStatements[k].hasReturnPath)
                && elseIfStatements[k].constantJumps == old(elseIfStatements[k].constantJumps)
      ensures elseStatement.Some? && elseStatement.value != null ==>
                elseStatement.value.hasReturnPath == old(elseStatement.value.hasReturnPath)
                && elseStatement.value.constantJumps == old(elseStatement.value.constantJumps)
    {
      if ifStatement == null {
        return Failure(LslTypes.ArgumentNull("ifStatement"));
      }
      var node := new ControlStatementNode.Empty();
      var e := node.SetIfStatement(ifStatement);
      for k := 0 to |elseIfStatements|
        invariant node.ifStatement == ifStatement && ifStatement.parent == node
        invariant node.elseStatement == null && !node.hasErrors
        invariant node.elseIfStatements == elseIfStatements[..k]
        invariant forall m :: 0 <= m < k ==> elseIfStatements[m] != null && elseIfStatements[m].parent == node
        invariant ifStatement.hasReturnPath == old(ifStatement.hasReturnPath)
        invariant ifStatement.constantJumps == old(ifStatement.constantJumps)
        invariant forall m :: 0 <= m < |elseIfStatements| && elseIfStatements[m] != null ==>
                    elseIfStatements[m].hasReturnPath == old(elseIfStatements[m].hasReturnPath)
                    && elseIfStatements[m].constantJumps == old(elseIfStatements[m].constantJumps)
        invariant elseStatement.Some? && elseStatement.value != null ==>
                    elseStatement.value.hasReturnPath == old(elseStatement.value.hasReturnPath)
                    && elseStatement.value.constantJumps == old(elseStatement.value.constantJumps)
      {
        var a := node.AddElseIfStatement(elseIfStatements[k]);
        if a.Some? {
          return Failure(a.value);
        }
      }
      assert elseIfStatements[..|elseIfStatements|] == elseIfStatements;
      if elseStatement.Some? {
        if elseStatement.value == null {
          return Failure(LslTypes.ArgumentNull("elseStatement"));
        }
        node.SetElseStatement(elseStatement.value);
      }
      return Success(node);
    }

    /** The IfStatement setter: null is refused; otherwise the branch's Parent becomes this node. */
    method SetIfStatement(value: BranchNode?) returns (error: Option<LslTypes.ArgumentError>)
      modifies this, value
      ensures value == null ==> error == Some(LslTypes.ArgumentNull("value")) && unchanged(this)
      ensures value != null ==> error.None? && ifStatement == value && value.parent == this
                                && value.hasReturnPath == old(value.hasReturnPath)
                                && value.constantJumps == old(value.constantJumps)
      ensures elseIfStatements == old(elseIfStatements) && elseStatement == old(elseStatement)
      ensures hasErrors == old(hasErrors)
    {
      if value == null {
        return Some(LslTypes.ArgumentNull("value"));
      }
      value.parent := this;
      ifStatement := value;
      error := None;
    }

    /** The ElseStatement setter: null removes the else branch; a branch gets this node as Parent. */
    method SetElseStatement(value: BranchNode?)
      modifies this, value
      ensures elseStatement == value
      ensures value != null ==> value.parent == this && value.hasReturnPath == old(value.hasReturnPath)
                                && value.constantJumps == old(value.constantJumps)
      ensures ifStatement == old(ifStatement) && elseIfStatements == old(elseIfStatements)
      ensures hasErrors == old(hasErrors)
    {
      if value != null {
        value.parent := this;
      }
      elseStatement := value;
    }

    /** AddElseIfStatement: null is refused; otherwise the branch is appended and gets this node as Parent. */
    method AddElseIfStatement(node: BranchNode?) returns (error: Option<LslTypes.ArgumentError>)
      modifies this, node
      ensures node == null ==> error == Some(LslTypes.ArgumentNull("node")) && unchanged(this)
      ensures node != null ==> error.None? && elseIfStatements == old(elseIfStatements) + [node] && node.parent == this
                               && node.hasReturnPath == old(node.hasReturnPath)
                               && node.constantJumps == old(node.constantJumps)
      ensures ifStatement == old(ifStatement) && elseStatement == old(elseStatement)
      ensures hasErrors == old(hasErrors)
    {
      if node == null {
        return Some(LslTypes.ArgumentNull("node"));
      }
      node.parent := this;
      elseIfStatements := elseIfStatements + [node];
      error := None;
    }

    predicate HasElseStatement()
      reads this
    {
      elseStatement != null
    }

    predicate HasElseIfStatements()
      reads this
    {
      |elseIfStatements| > 0
    }

    /** HaveReturnPath, as the source writes it: two cases on whether there are else-ifs. */
    predicate HasReturnPath()
      requires ifStatement != null
      reads this, ifStatement, elseStatement, set k | 0 <= k < |elseIfStatements| :: elseIfStatements[k]
    {
      if !HasElseIfStatements() then
        ifStatement.hasReturnPath && (elseStatement != null && elseStatement.hasReturnPath)
      else
        ifStatement.hasReturnPath && (forall k :: 0 <= k < |elseIfStatements| ==> elseIfStatements[k].hasReturnPath)
        && (elseStatement != null && elseStatement.hasReturnPath)
    }

    /** The chain has a return path exactly when the if, every else-if and an existing else all have one. */
    lemma ReturnPathIffAllBranches()
      requires ifStatement != null
      ensures HasReturnPath() <==>
                && ifStatement.hasReturnPath
                && (forall k :: 0 <= k < |elseIfStatements| ==> elseIfStatements[k].hasReturnPath)
                && elseStatement != null && elseStatement.hasReturnPath
      ensures elseStatement == null ==> !HasReturnPath()
    {
    }

    function ElseIfJumps(): (r: seq<seq<JumpDescription>>)
      reads this, set k | 0 <= k < |elseIfStatements| :: elseIfStatements[k]
      ensures |r| == |elseIfStatements|
      ensures forall k :: 0 <= k < |r| ==> r[k] == elseIfStatements[k].constantJumps
    {
      seq(|elseIfStatements|, k reads this, elseIfStatements requires 0 <= k < |elseIfStatements| =>
        elseIfStatements[k].constantJumps)
    }

    function ElseJumps(): Option<seq<JumpDescription>>
      reads this, elseStatement
    {
      if elseStatement == null then None else Some(elseStatement.constantJumps)
    }

    /** The if branch's jumps; a node without an if branch, as GetError builds, has none. */
    function IfJumps(): seq<JumpDescription>
      reads this, ifStatement
    {
      if ifStatement == null then [] else ifStatement.constantJumps
    }

    /**
     * GetConstantJump: null at once when there are neither else-ifs nor an else; otherwise a
     * HashSet of the if branch's jumps under JumpCmp, intersected in turn with each else-if's
     * and the else's jumps; its single element, if any, is returned through this statement.
     * Only the first step is reached without an if branch.
     */
    method GetConstantJump() returns (r: Result<Option<JumpDescription>, ConstantJumpError>)
      requires ifStatement != null || (elseIfStatements == [] && elseStatement == null)
      ensures r == ConstantJump(IfJumps(), ElseIfJumps(), ElseJumps(), this)
      ensures elseIfStatements == [] && elseStatement == null ==> r == Success(None)
    {
      if !HasElseIfStatements() && !HasElseStatement() {
        return Success(None);
      }
      var i := HashSetOf(ifStatement.constantJumps);
      i := IntersectWithEach(i, OtherBranches(ElseIfJumps(), ElseJumps()));
      if |i| == 0 {
        return Success(None);
      } else if |i| == 1 {
        return Success(Some(JumpDescription(i[0].determiningJump, this)));
      }
      return Failure(MoreThanOneJump);
    }
  }
}
