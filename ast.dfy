/** The syntax tree of parser.h. Each C++ node class owns its children
    through `unique_ptr` and is never changed after construction, so the
    nodes are datatype values here: every child belongs to exactly one
    parent and no subtree is shared. A number keeps its lexeme rather than
    the `double` that `strtod` would make of it. */
module Ast {

  datatype Expr =
    | Number(lexeme: string)
    | Variable(name: string)
    | Binary(op: char, lhs: Expr, rhs: Expr)
    | Call(callee: string, args: seq<Expr>)

  /** A function signature: its name and its parameter names, in order. */
  datatype Prototype = Prototype(name: string, params: seq<string>)

  /** A definition: exactly one prototype and one body. */
  datatype Function = Function(proto: Prototype, body: Expr)

  /** One element of an expression read off in order: an operand that is not
      a binary node, or a binary operator. */
  datatype Item = Operand(e: Expr) | Operator(op: char)

  /** In-order reading of an expression: binary nodes are opened up, every
      other node is one operand. */
  function Flat(e: Expr): (r: seq<Item>)
    ensures |r| % 2 == 1 && r[0].Operand? && r[|r| - 1].Operand?
  {
    match e
    case Binary(op, l, r) => Flat(l) + [Operator(op)] + Flat(r)
    case _ => [Operand(e)]
  }

  /** The in-order reading alternates: operands at the even positions,
      binary operators at the odd ones. */
  lemma {:induction false} FlatAlternates(e: Expr)
    ensures forall i :: 0 <= i < |Flat(e)| ==> (Flat(e)[i].Operand? <==> i % 2 == 0)
  {
    match e
    case Binary(op, l, r) =>
      FlatAlternates(l);
      FlatAlternates(r);
      var fl, fr := Flat(l), Flat(r);
      forall i | 0 <= i < |Flat(e)| ensures (Flat(e)[i].Operand? <==> i % 2 == 0) {
        if i < |fl| {
          assert Flat(e)[i] == fl[i];
        } else if i == |fl| {
          assert Flat(e)[i] == Operator(op);
        } else {
          assert Flat(e)[i] == fr[i - |fl| - 1];
        }
      }
    case _ =>
  }

  /** How an operand and an operator folded into a binary node read in order:
      the sequence step of the in-order theorems of both parsers. */
  lemma Regroup(e: seq<Item>, tail: seq<Item>, lhs: Expr, op: char, rhs: Expr, rest: seq<Item>, chain: seq<Item>, tail0: seq<Item>)
    requires e + tail == Flat(Binary(op, lhs, rhs)) + rest
    requires Flat(rhs) + rest == chain
    requires tail0 == [Operator(op)] + chain
    ensures e + tail == Flat(lhs) + tail0
  {
  }
}
