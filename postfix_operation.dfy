/**
 * LSLPostfixOperationNode: `expr++` or `expr--`. Its type is the one it was built with, its
 * kind is always a postfix expression, it is constant when its operand is, it adopts its
 * operand as the operand's Parent, and it clones into a fresh node over a cloned operand.
 */
module PostfixOperations {
  import opened Wrappers
  import LslTypes
  import opened ExpressionNodes

  class PostfixOperationNode {
    var context: Option<ParserContext>
    var leftExpression: ExprNode?
    var resultType: LslTypes.LslType
    var parent: object?
    var hasErrors: bool
    var sourceCodeRange: SourceCodeRange
    var sourceCodeRangesAvailable: bool

    /** The error constructor GetError uses: no operand, HasErrors set, the given range kept. */
    constructor Error(sourceRange: SourceCodeRange)
      ensures hasErrors && sourceCodeRange == sourceRange && context.None? && leftExpression == null
      ensures parent == null && !sourceCodeRangesAvailable
    {
      context := None;
      leftExpression := null;
      resultType := LslTypes.Void;
      parent := null;
      hasErrors := true;
      sourceCodeRange := sourceRange;
      sourceCodeRangesAvailable := false;
    }

    /**
     * The main constructor, once the context and the operand have passed their null checks:
     * it stores the result type and the operand, makes itself the operand's Parent and takes
     * its source range from the context.
     */
    constructor Build(context: ParserContext, resultType: LslTypes.LslType, leftExpression: ExprNode)
      modifies leftExpression
      ensures this.context == Some(context) && this.resultType == resultType && this.leftExpression == leftExpression
      ensures leftExpression.parent == this
      ensures leftExpression.isConstant == old(leftExpression.isConstant)
      ensures leftExpression.hasErrors == old(leftExpression.hasErrors)
      ensures sourceCodeRange == context.range && sourceCodeRangesAvailable
      ensures !hasErrors && parent == null
    {
      this.context := Some(context);
      this.resultType := resultType;
      this.leftExpression := leftExpression;
      parent := null;
      hasErrors := false;
      sourceCodeRange := context.range;
      sourceCodeRangesAvailable := true;
      new;
      leftExpression.parent := this;
    }

    static method GetError(sourceRange: SourceCodeRange) returns (n: PostfixOperationNode)
      ensures fresh(n) && n.hasErrors && n.sourceCodeRange == sourceRange && n.leftExpression == null
      ensures n.parent == null
    {
      n := new PostfixOperationNode.Error(sourceRange);
    }

    /** The main constructor with its null checks: the context first, then the operand. */
    static method Create(context: Option<ParserContext>, resultType: LslTypes.LslType, leftExpression: ExprNode?)
      returns (r: Result<PostfixOperationNode, LslTypes.ArgumentError>)
      modifies leftExpression
      ensures context.None? ==> r == Failure(LslTypes.ArgumentNull("context"))
      ensures context.Some? && leftExpression == null ==> r == Failure(LslTypes.ArgumentNull("leftExpression"))
      ensures r.Success? <==> context.Some? && leftExpression != null
      ensures r.Failure? ==> leftExpression == null || unchanged(leftExpression)
      ensures r.Success? ==>
                && fresh(r.value) && r.value.Built()
                && r.value.context == context && r.value.resultType == resultType
                && r.value.leftExpression == leftExpression && leftExpression.parent == r.value
                && r.value.sourceCodeRange == context.value.range
                && !r.value.hasErrors && r.value.parent == null
      ensures leftExpression != null ==>
                leftExpression.isConstant == old(leftExpression.isConstant)
                && leftExpression.hasErrors == old(leftExpression.hasErrors)
    {
      if context.None? {
        return Failure(LslTypes.ArgumentNull("context"));
      }
      if leftExpression == null {
        return Failure(LslTypes.ArgumentNull("leftExpression"));
      }
      var n := new PostfixOperationNode.Build(context.value, resultType, leftExpression);
      return Success(n);
    }

    /** A node built by the main constructor: the context and the operand are present. */
    predicate Built()
      reads this
    {
      context.Some? && leftExpression != null
    }

    /** Type: the result type the node was built with. */
    function Type(): (t: LslTypes.LslType)
      reads this
      ensures t == resultType
    {
      resultType
    }

    /** ExpressionType: always a postfix expression. */
    function ExpressionKind(): (k: ExpressionType)
      ensures k == PostfixExpression
    {
      PostfixExpression
    }

    /** IsConstant: the operand is present and constant. */
    predicate IsConstant()
      reads this, leftExpression
    {
      leftExpression != null && leftExpression.isConstant
    }

    /**
     * Clone: an error node clones into a fresh error node with the same source range; any
     * other node into a fresh node over a clone of its operand, with the same Type, HasErrors
     * and Parent. The original and its operand are left as they were.
     */
    method Clone() returns (c: PostfixOperationNode)
      requires hasErrors || Built()
      ensures fresh(c)
      ensures hasErrors ==> c.hasErrors && c.sourceCodeRange == sourceCodeRange && c.leftExpression == null && c.parent == null
      ensures !hasErrors ==>
                && c.Built() && fresh(c.leftExpression) && c.leftExpression.parent == c
                && c.leftExpression.isConstant == leftExpression.isConstant
                && c.resultType == resultType && c.hasErrors == hasErrors && c.parent == parent
                && c.context == context && c.sourceCodeRange == context.value.range
      ensures !hasErrors ==> (c.IsConstant() <==> IsConstant())
    {
      if hasErrors {
        c := GetError(sourceCodeRange);
        return;
      }
      var left := leftExpression.Clone();
      c := new PostfixOperationNode.Build(context.value, resultType, left);
      c.hasErrors := hasErrors;
      c.parent := parent;
    }
  }
}
