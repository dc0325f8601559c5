/**
 * LSLCompilationUnitNode: the root of a validated script. It keeps the global variable,
 * function and state declarations in the order they were added, counts every addition,
 * numbers the global variables with that counter, and marks the most recently added global
 * variable as the last statement in scope until anything else is added after it.
 */
module CompilationUnits {
  import opened Wrappers
  import LslTypes

  class VariableDeclarationNode {
    var parent: object?
    var statementIndex: int
    var isLastStatementInScope: bool

    constructor ()
      ensures parent == null && statementIndex == 0 && !isLastStatementInScope
    {
      parent := null;
      statementIndex := 0;
      isLastStatementInScope := false;
    }
  }

  class FunctionDeclarationNode {
    var parent: object?

    constructor ()
      ensures parent == null
    {
      parent := null;
    }
  }

  class StateScopeNode {
    var parent: object?

    constructor ()
      ensures parent == null
    {
      parent := null;
    }
  }

  class CompilationUnitNode {
    var globalVariableDeclarations: seq<VariableDeclarationNode>
    var functionDeclarations: seq<FunctionDeclarationNode>
    var stateDeclarations: seq<StateScopeNode>
    var addCounter: int
    var defaultState: StateScopeNode?
    var hasErrors: bool

    /** The constructor from a parser context: nothing added yet. */
    constructor ()
      ensures globalVariableDeclarations == [] && functionDeclarations == [] && stateDeclarations == []
      ensures addCounter == 0 && defaultState == null && !hasErrors
      ensures Valid()
    {
      globalVariableDeclarations := [];
      functionDeclarations := [];
      stateDeclarations := [];
      addCounter := 0;
      defaultState := null;
      hasErrors := false;
    }

    /** GetError: an empty node marked as having errors. */
    constructor Error()
      ensures globalVariableDeclarations == [] && functionDeclarations == [] && stateDeclarations == []
      ensures addCounter == 0 && defaultState == null && hasErrors
      ensures Valid()
    {
      globalVariableDeclarations := [];
      functionDeclarations := [];
      stateDeclarations := [];
      addCounter := 0;
      defaultState := null;
      hasErrors := true;
    }

    /** The number of additions the counter has seen: every declaration plus the default state. */
    function Additions(): nat
      reads this
    {
      |globalVariableDeclarations| + |functionDeclarations| + |stateDeclarations| + (if defaultState != null then 1 else 0)
    }

    /**
     * The bookkeeping the add operations keep: the counter counts every addition; the global
     * variables are distinct, have this node as Parent and statement indices below the
     * counter, each larger than the one before; only the last of them can carry the last-statement flag,
     * and it carries it exactly when it was the most recent addition.
     */
    predicate Valid()
      reads this, globalVariableDeclarations
    {
      var g := globalVariableDeclarations;
      && addCounter == Additions()
      && (forall i, j :: 0 <= i < j < |g| ==> g[i] != g[j])
      && (forall i :: 0 <= i < |g| ==> g[i].parent == this && 0 <= g[i].statementIndex < addCounter)
      && (forall i :: 0 < i < |g| ==> g[i - 1].statementIndex < g[i].statementIndex)
      && (forall i :: 0 <= i < |g| - 1 ==> !g[i].isLastStatementInScope)
      && (|g| > 0 ==> (g[|g| - 1].isLastStatementInScope <==> g[|g| - 1].statementIndex == addCounter - 1))
    }

    /** The statement indices of the global variables strictly increase along the list. */
    lemma IndicesIncrease()
      requires Valid()
      ensures forall i, j :: 0 <= i < j < |globalVariableDeclarations| ==>
                globalVariableDeclarations[i].statementIndex < globalVariableDeclarations[j].statementIndex
    {
      forall i, j | 0 <= i < j < |globalVariableDeclarations|
        ensures globalVariableDeclarations[i].statementIndex < globalVariableDeclarations[j].statementIndex
      {
        IndexBelow(i, j);
      }
    }

    lemma {:induction false} IndexBelow(i: nat, j: nat)
      requires Valid() && i < j < |globalVariableDeclarations|
      ensures globalVariableDeclarations[i].statementIndex < globalVariableDeclarations[j].statementIndex
      decreases j - i
    {
      if i + 1 < j {
        IndexBelow(i + 1, j);
      }
    }

    /** The last global variable declaration, whose flag an addition clears. */
    function LastGlobal(): set<object>
      reads this
    {
      if |globalVariableDeclarations| > 0 then {globalVariableDeclarations[|globalVariableDeclarations| - 1]} else {}
    }

    /**
     * AddVariableDeclaration: the declaration gets this node as Parent, the counter as its
     * statement index and the last-statement flag; the previous last global loses the flag;
     * the counter goes up by one and the declaration is appended.
     */
    method AddVariableDeclaration(declaration: VariableDeclarationNode?) returns (error: Option<LslTypes.ArgumentError>)
      modifies this, declaration, LastGlobal()
      ensures declaration == null ==> error == Some(LslTypes.ArgumentNull("declaration")) && unchanged(this) && unchanged(LastGlobal())
      ensures declaration != null ==>
                && error.None?
                && globalVariableDeclarations == old(globalVariableDeclarations) + [declaration]
                && addCounter == old(addCounter) + 1
                && declaration.parent == this
                && declaration.statementIndex == old(addCounter)
                && declaration.isLastStatementInScope
                   == (|old(globalVariableDeclarations)| == 0 || old(globalVariableDeclarations)[|old(globalVariableDeclarations)| - 1] != declaration)
      ensures declaration != null && |old(globalVariableDeclarations)| > 0 ==>
                var last := old(globalVariableDeclarations)[|old(globalVariableDeclarations)| - 1];
                && !last.isLastStatementInScope
                && (last != declaration ==> last.parent == old(last.parent) && last.statementIndex == old(last.statementIndex))
      ensures functionDeclarations == old(functionDeclarations) && stateDeclarations == old(stateDeclarations)
      ensures defaultState == old(defaultState) && hasErrors == old(hasErrors)
      ensures old(Valid()) && declaration !in old(globalVariableDeclarations) ==> Valid()
    {
      if declaration == null {
        return Some(LslTypes.ArgumentNull("declaration"));
      }
      var g := globalVariableDeclarations;
      declaration.parent := this;
      declaration.statementIndex := addCounter;
      declaration.isLastStatementInScope := true;
      if |g| > 0 {
        var last := g[|g| - 1];
        last.isLastStatementInScope := false;
      }
      addCounter := addCounter + 1;
      globalVariableDeclarations := g + [declaration];
      error := None;
      if old(Valid()) && declaration !in g {
        forall o | o in g
          ensures o.parent == old(o.parent) && o.statementIndex == old(o.statementIndex)
          ensures o.isLastStatementInScope ==> old(o.isLastStatementInScope)
        {
          assert o != declaration;
        }
        AppendKeepsValid(declaration);
      }
    }

    /**
     * Appending a declaration that is not yet in the list, with the next index and the flag,
     * keeps the bookkeeping when the earlier globals keep their Parent and index and none of
     * them gains the flag, the previous last one having lost it.
     */
    twostate lemma AppendKeepsValid(d: VariableDeclarationNode)
      requires old(Valid()) && d !in old(globalVariableDeclarations)
      requires globalVariableDeclarations == old(globalVariableDeclarations) + [d]
      requires addCounter == old(addCounter) + 1 && Additions() == old(Additions()) + 1
      requires d.parent == this && d.statementIndex == old(addCounter) && d.isLastStatementInScope
      requires forall o :: o in old(globalVariableDeclarations) ==>
                 && o.parent == old(o.parent)
                 && o.statementIndex == old(o.statementIndex)
                 && (o.isLastStatementInScope ==> old(o.isLastStatementInScope))
      requires |old(globalVariableDeclarations)| > 0 ==>
                 !old(globalVariableDeclarations)[|old(globalVariableDeclarations)| - 1].isLastStatementInScope
      ensures Valid()
    {
      var g0 := old(globalVariableDeclarations);
      var g := globalVariableDeclarations;
      assert forall i :: 0 <= i < |g0| ==> g[i] == g0[i] && g0[i] in g0;
      assert g[|g0|] == d;
    }

    /** AddFunctionDeclaration: Parent set, the last global loses its flag, counter up, declaration appended. */
    method AddFunctionDeclaration(declaration: FunctionDeclarationNode?) returns (error: Option<LslTypes.ArgumentError>)
      modifies this, declaration, LastGlobal()
      ensures declaration == null ==> error == Some(LslTypes.ArgumentNull("declaration")) && unchanged(this) && unchanged(LastGlobal())
      ensures declaration != null ==>
                && error.None?
                && functionDeclarations == old(functionDeclarations) + [declaration]
                && addCounter == old(addCounter) + 1
                && declaration.parent == this
                && globalVariableDeclarations == old(globalVariableDeclarations)
                && stateDeclarations == old(stateDeclarations)
      ensures declaration != null && |old(globalVariableDeclarations)| > 0 ==>
                var last := old(globalVariableDeclarations)[|old(globalVariableDeclarations)| - 1];
                !last.isLastStatementInScope && last.parent == old(last.parent)
                && last.statementIndex == old(last.statementIndex)
      ensures defaultState == old(defaultState) && hasErrors == old(hasErrors)
      ensures old(Valid()) ==> Valid()
    {
      if declaration == null {
        return Some(LslTypes.ArgumentNull("declaration"));
      }
      declaration.parent := this;
      if |globalVariableDeclarations| > 0 {
        globalVariableDeclarations[|globalVariableDeclarations| - 1].isLastStatementInScope := false;
      }
      addCounter := addCounter + 1;
      functionDeclarations := functionDeclarations + [declaration];
      error := None;
    }

    /** AddStateDeclaration: Parent set, the last global loses its flag, counter up, declaration appended. */
    method AddStateDeclaration(declaration: StateScopeNode?) returns (error: Option<LslTypes.ArgumentError>)
      modifies this, declaration, LastGlobal()
      ensures declaration == null ==> error == Some(LslTypes.ArgumentNull("declaration")) && unchanged(this) && unchanged(LastGlobal())
      ensures declaration != null ==>
                && error.None?
                && stateDeclarations == old(stateDeclarations) + [declaration]
                && addCounter == old(addCounter) + 1
                && declaration.parent == this
                && globalVariableDeclarations == old(globalVariableDeclarations)
                && functionDeclarations == old(functionDeclarations)
      ensures declaration != null && |old(globalVariableDeclarations)| > 0 ==>
                var last := old(globalVariableDeclarations)[|old(globalVariableDeclarations)| - 1];
                !last.isLastStatementInScope && last.parent == old(last.parent)
                && last.statementIndex == old(last.statementIndex)
      ensures defaultState == old(defaultState) && hasErrors == old(hasErrors)
      ensures old(Valid()) ==> Valid()
    {
      if declaration == null {
        return Some(LslTypes.ArgumentNull("declaration"));
      }
      declaration.parent := this;
      if |globalVariableDeclarations| > 0 {
        globalVariableDeclarations[|globalVariableDeclarations| - 1].isLastStatementInScope := false;
      }
      addCounter := addCounter + 1;
      stateDeclarations := stateDeclarations + [declaration];
      error := None;
    }

    /**
     * The DefaultState setter: null is refused. The first assignment counts as an addition
     * (the last global loses its flag and the counter goes up); a later one only replaces
     * the state. Either way the state gets this node as Parent.
     */
    method SetDefaultState(value: StateScopeNode?) returns (error: Option<LslTypes.ArgumentError>)
      modifies this, value, LastGlobal()
      ensures value == null ==> error == Some(LslTypes.ArgumentNull("value")) && unchanged(this) && unchanged(LastGlobal())
      ensures value != null ==>
                && error.None?
                && defaultState == value && value.parent == this
                && addCounter == old(addCounter) + (if old(defaultState) == null then 1 else 0)
      ensures value != null && old(defaultState) == null && |old(globalVariableDeclarations)| > 0 ==>
                var last := old(globalVariableDeclarations)[|old(globalVariableDeclarations)| - 1];
                !last.isLastStatementInScope && last.parent == old(last.parent)
                && last.statementIndex == old(last.statementIndex)
      ensures old(defaultState) != null && |old(globalVariableDeclarations)| > 0 ==>
                var last := old(globalVariableDeclarations)[|old(globalVariableDeclarations)| - 1];
                last.isLastStatementInScope == old(last.isLastStatementInScope)
                && last.parent == old(last.parent) && last.statementIndex == old(last.statementIndex)
      ensures globalVariableDeclarations == old(globalVariableDeclarations)
      ensures functionDeclarations == old(functionDeclarations) && stateDeclarations == old(stateDeclarations)
      ensures hasErrors == old(hasErrors)
      ensures old(Valid()) ==> Valid()
    {
      if value == null {
        return Some(LslTypes.ArgumentNull("value"));
      }
      if defaultState == null {
        if |globalVariableDeclarations| > 0 {
          globalVariableDeclarations[|globalVariableDeclarations| - 1].isLastStatementInScope := false;
        }
        addCounter := addCounter + 1;
      }
      defaultState := value;
      defaultState.parent := this;
      error := None;
    }
  }
}
