/**
 * The earlier AST snapshot of src/parse/ASTNode.c: numbers holding a
 * `Value`, binary and unary operations, evaluation through add_values,
 * printing through value_stringify, and free_node.
 *
 * The snapshot is written against a Value API (value_make_number,
 * add_values, the one-argument value_stringify) that src/value/value.c does
 * not implement, so the value type, the addition and the printing of a
 * value are parameters here.
 */
module OldAst {
  import opened Common
  import Tokens
  import Parse

  /**
   * The node kinds AST_BINOP, AST_NUMBER and AST_UNOP. make_binop,
   * make_unop and make_number(val), whose number holds
   * value_make_number(val), build the three kinds.
   */
  datatype Node<V> =
    | Binop(left: Node<V>, dyad: string, right: Node<V>)
    | Number(value: V)
    | Unop(monad: string, rest: Node<V>)

  /** Eval: BINOP adds its two evaluated operands, NUMBER is its value, UNOP passes its operand through. */
  function Eval<V>(n: Node<V>, add: (V, V) -> V): V
  {
    match n
    case Binop(l, _, r) => add(Eval(l, add), Eval(r, add))
    case Number(v) => v
    case Unop(_, r) => Eval(r, add)
  }

  /** Stringify: "L op R", the value's text, "op R". */
  function Stringify<V>(n: Node<V>, show: V -> string): string
  {
    match n
    case Binop(l, d, r) => Stringify(l, show) + " " + d + " " + Stringify(r, show)
    case Number(v) => show(v)
    case Unop(m, r) => m + " " + Stringify(r, show)
  }

  /** The tree of the later parser in src/parse/parse.c with its `long` numbers as values. */
  function Lift(e: Parse.PExpr): (n: Node<int>)
    ensures e.Num? <==> n.Number?
  {
    match e
    case Binop(l, d, r) => Binop(Lift(l), d, Lift(r))
    case Num(v) => Number(v)
    case Unop(m, r) => Unop(m, Lift(r))
  }

  function Plus(a: int, b: int): int
  {
    a + b
  }

  /**
   * With `long`s for values and "+" for add_values, Eval is the eval of
   * src/parse/parse.c: the sum of the numbers in the tree.
   */
  lemma {:induction false} EvalAsLong(e: Parse.PExpr)
    ensures Eval(Lift(e), Plus) == Parse.Eval(e) == Parse.Sum(Parse.Leaves(e))
  {
    Parse.EvalIsSum(e);
    match e
    case Binop(l, _, r) =>
      EvalAsLong(l);
      EvalAsLong(r);
    case Num(_) =>
    case Unop(_, r) =>
      EvalAsLong(r);
  }

  /**
   * With "%ld" for value_stringify, Stringify prints what the stringify of
   * src/parse/parse.c prints.
   */
  lemma {:induction false} StringifyAsLong(e: Parse.PExpr)
    ensures Stringify(Lift(e), LongText) == Parse.Show(e)
  {
    match e
    case Binop(l, _, r) =>
      StringifyAsLong(l);
      StringifyAsLong(r);
    case Num(_) =>
    case Unop(_, r) =>
      StringifyAsLong(r);
  }

  /**
   * The printed text of a tree of `long`s reads back as the same tree,
   * with the same value, by the parser of src/parse/parse.c, when it
   * prints unambiguously.
   */
  lemma PrintParseEval(e: Parse.PExpr, rest: seq<Parse.PToken>)
    requires Parse.Canonical(e)
    requires |rest| > 0 && rest[0].ttype in {Tokens.Eof, Tokens.RParen}
    ensures SplitSpaces(Stringify(Lift(e), LongText)) == Parse.Texts(Parse.TokensOf(e))
    ensures Parse.Expr(Parse.TokensOf(e) + rest, 0) == Ok(Parse.Parsed(e, |Parse.TokensOf(e)|))
    ensures Eval(Lift(Parse.Expr(Parse.TokensOf(e) + rest, 0).value.tree), Plus) == Parse.Eval(e)
  {
    StringifyAsLong(e);
    Parse.PrintedWords(e);
    var ts := Parse.TokensOf(e) + rest;
    assert ts[0..|Parse.TokensOf(e)|] == Parse.TokensOf(e);
    Parse.ParseTokensOf(e, ts);
    EvalAsLong(e);
  }

  /** The shape of a tree: its numbers forgotten. */
  function Skeleton<V>(n: Node<V>): (e: Parse.PExpr)
    ensures n.Number? <==> e.Num?
  {
    match n
    case Binop(l, d, r) => Parse.Binop(Skeleton(l), d, Skeleton(r))
    case Number(_) => Parse.Num(0)
    case Unop(m, r) => Parse.Unop(m, Skeleton(r))
  }

  /**
   * free_node as written: a BINOP frees its two operand nodes, a UNOP its
   * operand node, each with a plain free, and then every node frees itself.
   * The nodes released, in order, named as in Parse.IsNode.
   */
  function FreeNodeAsWritten<V>(n: Node<V>): (freed: seq<seq<nat>>)
    ensures forall p :: p in freed ==> Parse.IsNode(Skeleton(n), p) && |p| <= 1
    ensures Parse.Distinct(freed) && Parse.ChildrenFirst(freed)
    ensures [] in freed
  {
    match n
    case Binop(_, _, _) => [[0], [1], []]
    case Number(_) => [[]]
    case Unop(_, _) => [[0], []]
  }

  /** free_node leaks the operands of a nested operand: here the node of the number 1. */
  lemma FreeNodeLeaks()
    ensures Parse.IsNode(Skeleton(Binop(Binop(Number(1), "+", Number(2)), "+", Number(3))), [0, 0])
    ensures [0, 0] !in FreeNodeAsWritten(Binop(Binop(Number(1), "+", Number(2)), "+", Number(3)))
  {
    assert Parse.IsNode(Parse.Binop(Parse.Num(0), "+", Parse.Num(0)), [0]);
  }

  /**
   * free_node as intended: the whole tree released once, each node after
   * the nodes below it, as the intended free_node of src/parse/parse.c.
   */
  function FreeNode<V>(n: Node<V>): (freed: seq<seq<nat>>)
    ensures forall p :: p in freed <==> Parse.IsNode(Skeleton(n), p)
    ensures Parse.Distinct(freed) && Parse.ChildrenFirst(freed)
  {
    Parse.FreeTreeReleasesAll(Skeleton(n));
    Parse.FreeTree(Skeleton(n))
  }
}
