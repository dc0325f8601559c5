/**
 * What the rotation-literal and postfix-operation nodes need of the ILSLExprNode children
 * they hold, of the parser contexts they are built from, and of the expression kinds they
 * report.
 */
module ExpressionNodes {
  /** An LSLSourceCodeRange, known only by identity. */
  datatype SourceCodeRange = SourceCodeRange(id: nat)

  /** An ANTLR parser context; `new LSLSourceCodeRange(context)` is the range it carries. */
  datatype ParserContext = ParserContext(range: SourceCodeRange)

  /** The LSLExpressionType members the two nodes report. */
  datatype ExpressionType = Literal | PostfixExpression

  /**
   * A child expression (ILSLExprNode): its Parent, whether it is constant and has errors, and
   * its Clone, which yields a fresh node that is constant, has errors and has a Parent
   * exactly as the original.
   */
  class ExprNode {
    var parent: object?
    var isConstant: bool
    var hasErrors: bool

    constructor (isConstant: bool, hasErrors: bool)
      ensures parent == null && this.isConstant == isConstant && this.hasErrors == hasErrors
    {
      parent := null;
      this.isConstant := isConstant;
      this.hasErrors := hasErrors;
    }

    method Clone() returns (c: ExprNode)
      ensures fresh(c)
      ensures c.isConstant == isConstant && c.hasErrors == hasErrors && c.parent == parent
    {
      c := new ExprNode(isConstant, hasErrors);
      c.parent := parent;
    }
  }
}
