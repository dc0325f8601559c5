/**
 * LSLRotationLiteralNode: the literal `<x, y, z, s>`. It always has type rotation and kind
 * literal, is constant when its four components are, adopts its components as their Parent,
 * and clones into a fresh node over cloned components.
 */
module RotationLiterals {
  import opened Wrappers
  import LslTypes
  import opened ExpressionNodes

  class RotationLiteralNode {
    var context: Option<ParserContext>
    var x: ExprNode?
    var y: ExprNode?
    var z: ExprNode?
    var s: ExprNode?
    var parent: object?
    var hasErrors: bool
    var sourceCodeRange: SourceCodeRange
    var sourceCodeRangesAvailable: bool

    /** The error constructor GetError uses: no components, HasErrors set, the given range kept. */
    constructor Error(sourceRange: SourceCodeRange)
      ensures hasErrors && sourceCodeRange == sourceRange
      ensures context.None? && x == null && y == null && z == null && s == null
      ensures parent == null && !sourceCodeRangesAvailable
    {
      context := None;
      x, y, z, s := null, null, null, null;
      parent := null;
      hasErrors := true;
      sourceCodeRange := sourceRange;
      sourceCodeRangesAvailable := false;
    }

    /** The object the main constructor starts from, before its body runs. */
    constructor Blank()
      ensures !hasErrors && context.None? && x == null && y == null && z == null && s == null
      ensures parent == null && !sourceCodeRangesAvailable
    {
      context := None;
      x, y, z, s := null, null, null, null;
      parent := null;
      hasErrors := false;
      sourceCodeRange := SourceCodeRange(0);
      sourceCodeRangesAvailable := false;
    }

    static method GetError(sourceRange: SourceCodeRange) returns (n: RotationLiteralNode)
      ensures fresh(n) && n.hasErrors && n.sourceCodeRange == sourceRange
      ensures n.x == null && n.y == null && n.z == null && n.s == null && n.parent == null
    {
      n := new RotationLiteralNode.Error(sourceRange);
    }

    /** A node built by the main constructor: all four components and the context are present. */
    predicate Built()
      reads this
    {
      context.Some? && x != null && y != null && z != null && s != null
    }

    /**
     * The main constructor: the context and then each component in the order x, y, z, s is
     * checked for null, and each component gets the new node as Parent as soon as it has been
     * checked; the node takes its source range from the context.
     */
    static method Create(context: Option<ParserContext>, x: ExprNode?, y: ExprNode?, z: ExprNode?, s: ExprNode?)
      returns (r: Result<RotationLiteralNode, LslTypes.ArgumentError>)
      modifies x, y, z, s
      ensures context.None? ==> r == Failure(LslTypes.ArgumentNull("context"))
      ensures context.Some? && x == null ==> r == Failure(LslTypes.ArgumentNull("x"))
      ensures context.Some? && x != null && y == null ==> r == Failure(LslTypes.ArgumentNull("y"))
      ensures context.Some? && x != null && y != null && z == null ==> r == Failure(LslTypes.ArgumentNull("z"))
      ensures context.Some? && x != null && y != null && z != null && s == null ==> r == Failure(LslTypes.ArgumentNull("s"))
      ensures r.Success? <==> context.Some? && x != null && y != null && z != null && s != null
      ensures r.Success? ==>
                && fresh(r.value) && r.value.Built()
                && r.value.context == context && r.value.sourceCodeRange == context.value.range
                && r.value.x == x && r.value.y == y && r.value.z == z && r.value.s == s
                && x.parent == r.value && y.parent == r.value && z.parent == r.value && s.parent == r.value
                && !r.value.hasErrors && r.value.parent == null && r.value.sourceCodeRangesAvailable
      ensures x != null ==> x.isConstant == old(x.isConstant) && x.hasErrors == old(x.hasErrors)
      ensures y != null ==> y.isConstant == old(y.isConstant) && y.hasErrors == old(y.hasErrors)
      ensures z != null ==> z.isConstant == old(z.isConstant) && z.hasErrors == old(z.hasErrors)
      ensures s != null ==> s.isConstant == old(s.isConstant) && s.hasErrors == old(s.hasErrors)
    {
      if context.None? {
        return Failure(LslTypes.ArgumentNull("context"));
      }
      var n := new RotationLiteralNode.Blank();
      if x == null {
        return Failure(LslTypes.ArgumentNull("x"));
      }
      x.parent := n;
      if y == null {
        return Failure(LslTypes.ArgumentNull("y"));
      }
      y.parent := n;
      if z == null {
        return Failure(LslTypes.ArgumentNull("z"));
      }
      z.parent := n;
      if s == null {
        return Failure(LslTypes.ArgumentNull("s"));
      }
      s.parent := n;
      n.context := context;
      n.x, n.y, n.z, n.s := x, y, z, s;
      n.sourceCodeRange := context.value.range;
      n.sourceCodeRangesAvailable := true;
      return Success(n);
    }

    /** Type: always rotation. */
    function Type(): (t: LslTypes.LslType)
      ensures t == LslTypes.Rotation
    {
      LslTypes.Rotation
    }

    /** ExpressionType: always a literal. */
    function ExpressionKind(): (k: ExpressionType)
      ensures k == Literal
    {
      Literal
    }

    /** IsConstant: all four components are present and constant. */
    predicate IsConstant()
      reads this, x, y, z, s
    {
      var present := x != null && y != null && z != null && s != null;
      present && x.isConstant && y.isConstant && z.isConstant && s.isConstant
    }

    /**
     * Clone: an error node clones into a fresh error node with the same source range; any
     * other node into a fresh node over clones of its four components, with the same
     * HasErrors and Parent. The original and its components are left as they were.
     */
    method Clone() returns (c: RotationLiteralNode)
      requires hasErrors || Built()
      ensures fresh(c)
      ensures hasErrors ==>
                c.hasErrors && c.sourceCodeRange == sourceCodeRange
                && c.x == null && c.y == null && c.z == null && c.s == null && c.parent == null
      ensures !hasErrors ==>
                && c.Built() && fresh(c.x) && fresh(c.y) && fresh(c.z) && fresh(c.s)
                && c.x.parent == c && c.y.parent == c && c.z.parent == c && c.s.parent == c
                && c.x.isConstant == x.isConstant && c.y.isConstant == y.isConstant
                && c.z.isConstant == z.isConstant && c.s.isConstant == s.isConstant
                && c.hasErrors == hasErrors && c.parent == parent
                && c.context == context && c.sourceCodeRange == context.value.range
      ensures !hasErrors ==> (c.IsConstant() <==> IsConstant())
    {
      if hasErrors {
        c := GetError(sourceCodeRange);
        return;
      }
      var cx := x.Clone();
      var cy := y.Clone();
      var cz := z.Clone();
      var cs := s.Clone();
      var r := Create(context, cx, cy, cz, cs);
      c := r.value;
      c.hasErrors := hasErrors;
      c.parent := parent;
    }
  }
}
