/**
 * The syntax tree of src/ASTNode/ASTNode.c: a tagged union of binary and
 * unary operations, values, assignments and statement lists. The tree shape
 * is a datatype; the values at its leaves are the reference-counted Value
 * objects of the value engine, which evaluation and freeing update in place.
 */
module Ast {
  import opened Common
  import opened Values

  /** The initial sibling capacity of make_statement_list. */
  const INITIAL_LIST_CAP: nat := 10

  /**
   * An AST node. A statement list's `siblings` are its `use` filled slots
   * and `cap` the number of slots allocated.
   */
  datatype Node =
    | Binop(left: Node, dyad: string, right: Node)
    | Unop(monad: string, rest: Node)
    | ValueNode(value: Value)
    | Assignment(lvalue: Node, rvalue: Node)
    | StatementList(siblings: seq<Node>, cap: nat)

  /** The statement-list invariant: at least one free slot (use < cap). */
  predicate ListOk(n: Node)
  {
    n.StatementList? ==> |n.siblings| < n.cap
  }

  // ---------------------------------------------------------------------
  // Statement lists

  /** make_statement_list: no siblings, room for ten. */
  function MakeStatementList(): (n: Node)
    ensures n.StatementList? && |n.siblings| == 0 && ListOk(n)
  {
    StatementList([], INITIAL_LIST_CAP)
  }

  /**
   * extend_statement_list: store `stmt` in the next slot; when that fills
   * the last slot, the capacity doubles.
   */
  function ExtendStatementList(list: Node, stmt: Node): (r: Node)
    requires list.StatementList? && ListOk(list)
    ensures r.StatementList? && ListOk(r)
    ensures r.siblings == list.siblings + [stmt]
    ensures r.cap == if |list.siblings| + 1 == list.cap then 2 * list.cap else list.cap
  {
    var use := |list.siblings| + 1;
    StatementList(list.siblings + [stmt], if use < list.cap then list.cap else 2 * list.cap)
  }

  /**
   * A list built by extend_statement_list from a fresh list holds exactly
   * the statements given, in order, with the capacity CapFor predicts.
   */
  lemma {:induction false} ListCapacity(stmts: seq<Node>)
    ensures Build(stmts).siblings == stmts
    ensures Build(stmts).cap == CapFor(|stmts|)
    ensures |stmts| < Build(stmts).cap
    decreases |stmts|
  {
    ListContents(stmts);
    ListCap(stmts);
  }

  lemma {:induction false} ListContents(stmts: seq<Node>)
    ensures Build(stmts).siblings == stmts
    decreases |stmts|
  {
    if |stmts| > 0 {
      ListContents(stmts[..|stmts| - 1]);
      assert stmts[..|stmts| - 1] + [stmts[|stmts| - 1]] == stmts;
    }
  }

  lemma {:induction false} ListCap(stmts: seq<Node>)
    ensures Build(stmts).cap == CapFor(|stmts|)
    decreases |stmts|
  {
    if |stmts| > 0 {
      var p := stmts[..|stmts| - 1];
      ListCap(p);
      ListContents(p);
    }
  }

  /** The list built by extending a fresh list with each of `stmts` in turn. */
  function Build(stmts: seq<Node>): (r: Node)
    ensures r.StatementList? && ListOk(r)
    decreases |stmts|
  {
    if stmts == [] then MakeStatementList()
    else ExtendStatementList(Build(stmts[..|stmts| - 1]), stmts[|stmts| - 1])
  }

  /**
   * The capacity after `k` extensions: it doubles each time the k-th
   * statement fills it. It always exceeds `k` and never exceeds twice `k`
   * once past the initial ten.
   */
  function CapFor(k: nat): (c: nat)
    ensures k < c && c >= INITIAL_LIST_CAP
    ensures c <= if k < INITIAL_LIST_CAP then INITIAL_LIST_CAP else 2 * k
  {
    if k == 0 then INITIAL_LIST_CAP
    else if k == CapFor(k - 1) then 2 * CapFor(k - 1) else CapFor(k - 1)
  }

  // ---------------------------------------------------------------------
  // The values a tree holds

  /** Every value stored in the tree, once per leaf that holds it. */
  function ValueBag(n: Node): multiset<Value>
    decreases n, 1
  {
    match n
    case Binop(l, _, r) => ValueBag(l) + ValueBag(r)
    case Unop(_, e) => ValueBag(e)
    case ValueNode(v) => multiset{v}
    case Assignment(l, r) => ValueBag(l) + ValueBag(r)
    case StatementList(ss, _) => SiblingsBag(n, |ss|)
  }

  /** The values held by the first `k` siblings of a statement list. */
  function SiblingsBag(n: Node, k: nat): multiset<Value>
    requires n.StatementList? && k <= |n.siblings|
    decreases n, 0, k
  {
    if k == 0 then multiset{} else SiblingsBag(n, k - 1) + ValueBag(n.siblings[k - 1])
  }

  function ValuesOf(n: Node): set<Value>
  {
    set v | v in ValueBag(n)
  }

  /**
   * The values evaluation touches: Eval follows only the right-hand side of
   * an assignment and only the last statement of a list.
   */
  function EvalSet(n: Node): set<Value>
  {
    match n
    case Binop(l, _, r) => EvalSet(l) + EvalSet(r)
    case Unop(_, e) => EvalSet(e)
    case ValueNode(v) => {v}
    case Assignment(_, r) => EvalSet(r)
    case StatementList(ss, _) => if |ss| == 0 then {} else EvalSet(ss[|ss| - 1])
  }

  /** Eval reads siblings[use - 1], so every list it reaches must be non-empty. */
  predicate Evaluable(n: Node)
  {
    match n
    case Binop(l, _, r) => Evaluable(l) && Evaluable(r)
    case Unop(_, e) => Evaluable(e)
    case ValueNode(_) => true
    case Assignment(_, r) => Evaluable(r)
    case StatementList(ss, _) => |ss| >= 1 && Evaluable(ss[|ss| - 1])
  }

  ghost predicate AllValid(vs: set<Value>)
    reads vs
  {
    forall v :: v in vs ==> v.Valid()
  }

  ghost predicate AllShaped(vs: set<Value>)
    reads vs`rank, vs`ecount, vs`acount, vs`sd
  {
    forall v :: v in vs ==> v.Shaped()
  }

  // ---------------------------------------------------------------------
  // Evaluation

  /**
   * `env` records the view of every value evaluation touches; Eval changes
   * reference counts only, so the record stays accurate throughout.
   */
  ghost predicate Agrees(vs: set<Value>, env: map<Value, View>)
    reads vs`rank, vs`ecount, vs`acount, vs`sd, vs`vtype
  {
    forall v :: v in vs ==> v in env && v.Shaped() && env[v] == v.AsView()
  }

  /** What Eval computes, given the views of the stored values: sums by value_add, everything else passes a value through. */
  function Denote(n: Node, env: map<Value, View>): (r: Result<View, EvalError>)
    requires Evaluable(n) && EvalSet(n) <= env.Keys
    requires forall v :: v in EvalSet(n) ==> ViewOk(env[v])
    ensures r.Ok? ==> ViewOk(r.value)
  {
    match n
    case Binop(l, _, r) =>
      (match Denote(l, env)
       case Err(e) => Err(e)
       case Ok(lv) =>
         match Denote(r, env)
         case Err(e) => Err(e)
         case Ok(rv) => AddViews(lv, rv))
    case Unop(_, e) => Denote(e, env)
    case ValueNode(v) => Ok(env[v])
    case Assignment(_, r) => Denote(r, env)
    case StatementList(ss, _) => Denote(ss[|ss| - 1], env)
  }

  /**
   * Eval: the view of the result is Denote. The result is either a value
   * stored in the tree, which gains one reference, or a fresh value with a
   * single reference; every other value keeps its count, because each
   * operand of a sum is released once after value_add. `vs` is any set of
   * values, covering those Eval touches, whose views and validity the caller
   * wants to keep track of.
   */
  method Eval(n: Node, ghost vs: set<Value>, ghost env: map<Value, View>) returns (r: Result<Value, EvalError>)
    requires Evaluable(n) && EvalSet(n) <= vs && AllValid(vs) && Agrees(vs, env)
    modifies EvalSet(n)`refcount, EvalSet(n)`live
    ensures Agrees(vs, env)
    ensures r.Err? <==> Denote(n, env).Err?
    ensures r.Ok? ==> AllValid(vs) && r.value.Valid()
    ensures r.Ok? ==> Ok(r.value.AsView()) == Denote(n, env)
    ensures r.Ok? ==> r.value in EvalSet(n) || (fresh(r.value) && r.value.refcount == 1)
    ensures r.Ok? ==> forall v :: v in vs ==>
      v.refcount == old(v.refcount) + (if v == r.value then 1 else 0)
    decreases n, 2
  {
    if n.Binop? {
      r := EvalSum(n, vs, env);
    } else if n.ValueNode? {
      r := EvalLeaf(n, vs, env);
    } else {
      var c := Operand(n);
      PassThrough(n, env);
      r := Eval(c, vs, env);
    }
  }

  /**
   * The node whose value a UNOP, an ASSIGNMENT or a STATEMENT_LIST passes
   * through: the operand, the right-hand side, the last statement.
   */
  function Operand(n: Node): Node
    requires n.Unop? || n.Assignment? || (n.StatementList? && |n.siblings| >= 1)
  {
    match n
    case Unop(_, e) => e
    case Assignment(_, r) => r
    case StatementList(ss, _) => ss[|ss| - 1]
  }

  lemma PassThrough(n: Node, env: map<Value, View>)
    requires Evaluable(n) && !n.Binop? && !n.ValueNode?
    requires EvalSet(n) <= env.Keys && forall v :: v in EvalSet(n) ==> ViewOk(env[v])
    ensures Evaluable(Operand(n)) && EvalSet(Operand(n)) == EvalSet(n)
    ensures Denote(Operand(n), env) == Denote(n, env)
  {
  }

  /** The VALUE case of Eval: value_reference of the stored value. */
  method EvalLeaf(n: Node, ghost vs: set<Value>, ghost env: map<Value, View>) returns (r: Result<Value, EvalError>)
    requires n.ValueNode? && EvalSet(n) <= vs && AllValid(vs) && Agrees(vs, env)
    modifies EvalSet(n)`refcount, EvalSet(n)`live
    ensures Agrees(vs, env)
    ensures r.Ok? && AllValid(vs) && r.value.Valid() && r.value == n.value
    ensures r.value.AsView() == env[n.value]
    ensures forall v :: v in vs ==> v.refcount == old(v.refcount) + (if v == r.value then 1 else 0)
  {
    var x := n.value.Reference();
    return Ok(x);
  }

  /**
   * The BINOP case of Eval: evaluate both operands, add them, then release
   * each operand once.
   */
  method EvalSum(n: Node, ghost vs: set<Value>, ghost env: map<Value, View>) returns (r: Result<Value, EvalError>)
    requires n.Binop? && Evaluable(n) && EvalSet(n) <= vs && AllValid(vs) && Agrees(vs, env)
    modifies EvalSet(n)`refcount, EvalSet(n)`live
    ensures Agrees(vs, env)
    ensures r.Err? <==> Denote(n, env).Err?
    ensures r.Ok? ==> AllValid(vs) && r.value.Valid()
    ensures r.Ok? ==> Ok(r.value.AsView()) == Denote(n, env)
    ensures r.Ok? ==> fresh(r.value) && r.value.refcount == 1
    ensures r.Ok? ==> forall v :: v in vs ==> v.refcount == old(v.refcount)
    decreases n, 1
  {
    var ops := EvalOperands(n, vs, env);
    if ops.Err? {
      return Err(ops.error);
    }
    var a, w := ops.value.left, ops.value.right;
    label BeforeAdd:
    r := AddRelease(a, w, vs, env);
    if r.Ok? {
      forall v | v in vs ensures v.refcount == old(v.refcount) && v.Valid() {
        assert old@BeforeAdd(v.refcount) == old(v.refcount) + (if v == a then 1 else 0) + (if v == w then 1 else 0);
        assert v == a || v == w || v.live == old@BeforeAdd(v.live);
      }
    }
  }

  /** The two operands of a sum, each holding one reference taken by Eval. */
  datatype Operands = Operands(left: Value, right: Value)

  /** Evaluate the left operand, then the right one; stop at the first error. */
  method EvalOperands(n: Node, ghost vs: set<Value>, ghost env: map<Value, View>)
    returns (r: Result<Operands, EvalError>)
    requires n.Binop? && Evaluable(n) && EvalSet(n) <= vs && AllValid(vs) && Agrees(vs, env)
    modifies EvalSet(n)`refcount, EvalSet(n)`live
    ensures Agrees(vs, env)
    ensures r.Err? <==> Denote(n.left, env).Err? || Denote(n.right, env).Err?
    ensures r.Ok? ==> r.value.left.Valid() && r.value.right.Valid()
    ensures r.Ok? ==> Ok(r.value.left.AsView()) == Denote(n.left, env)
    ensures r.Ok? ==> Ok(r.value.right.AsView()) == Denote(n.right, env)
    ensures r.Ok? ==> (r.value.left == r.value.right ==> r.value.left.refcount >= 2)
    ensures r.Ok? ==> r.value.left in vs || (fresh(r.value.left) && r.value.left != r.value.right)
    ensures r.Ok? ==> r.value.right in vs || fresh(r.value.right)
    ensures r.Ok? ==> forall v :: v in vs ==>
      v.refcount == old(v.refcount) + (if v == r.value.left then 1 else 0) + (if v == r.value.right then 1 else 0)
    ensures r.Ok? ==> AllValid(vs)
    decreases n, 0
  {
    var lr := Eval(n.left, vs, env);
    if lr.Err? {
      return Err(lr.error);
    }
    var a := lr.value;
    ghost var av := a.AsView();
    label AfterLeft:
    var rr := Eval(n.right, vs, env);
    if rr.Err? {
      return Err(rr.error);
    }
    var w := rr.value;
    assert a.Valid() && a.AsView() == av by {
      assert a in vs || (a.refcount == old@AfterLeft(a.refcount) && a.live == old@AfterLeft(a.live)
        && a.rank == old@AfterLeft(a.rank) && a.ecount == old@AfterLeft(a.ecount)
        && a.acount == old@AfterLeft(a.acount) && a.sd == old@AfterLeft(a.sd) && a.vtype == old@AfterLeft(a.vtype));
    }
    r := Ok(Operands(a, w));
    forall v | v in vs
      ensures v.refcount == old(v.refcount) + (if v == a then 1 else 0) + (if v == w then 1 else 0)
    {
      assert old@AfterLeft(v.refcount) == old(v.refcount) + (if v == a then 1 else 0);
    }
  }

  /**
   * value_add of two operands, then value_free of each; the views of the
   * values in `vs` are untouched.
   */
  method AddRelease(a: Value, w: Value, ghost vs: set<Value>, ghost env: map<Value, View>)
    returns (r: Result<Value, EvalError>)
    requires a.Valid() && w.Valid() && (a == w ==> a.refcount >= 2)
    requires Agrees(vs, env)
    modifies a`refcount, a`live, w`refcount, w`live
    ensures Agrees(vs, env)
    ensures r.Err? <==> AddViews(old(a.AsView()), old(w.AsView())).Err?
    ensures r.Ok? ==> fresh(r.value) && r.value.Valid() && r.value.refcount == 1
    ensures r.Ok? ==> AddViews(old(a.AsView()), old(w.AsView())) == Ok(r.value.AsView())
    ensures r.Ok? ==> a.refcount == old(a.refcount) - (if a == w then 2 else 1)
    ensures r.Ok? ==> w.refcount == old(w.refcount) - (if a == w then 2 else 1)
    ensures r.Ok? ==> (a.live <==> a.refcount > 0) && (w.live <==> w.refcount > 0)
  {
    r := Add(a, w);
    if r.Err? {
      return;
    }
    ReleaseBoth(a, w, vs, env);
  }

  /** value_free of both operands: only their counts and liveness change. */
  method ReleaseBoth(a: Value, w: Value, ghost vs: set<Value>, ghost env: map<Value, View>)
    requires a.Valid() && w.Valid() && (a == w ==> a.refcount >= 2)
    requires Agrees(vs, env)
    modifies a`refcount, a`live, w`refcount, w`live
    ensures Agrees(vs, env)
    ensures a.refcount == old(a.refcount) - (if a == w then 2 else 1)
    ensures w.refcount == old(w.refcount) - (if a == w then 2 else 1)
    ensures (a.live <==> a.refcount > 0) && (w.live <==> w.refcount > 0)
  {
    a.Free();
    w.Free();
  }

  lemma ValuesAllocated(n: Node)
    ensures forall v :: v in ValuesOf(n) ==> allocated(v)
  {
    BagAllocated(n);
  }

  lemma BagAllocated(n: Node)
    ensures forall v :: v in ValueBag(n) ==> allocated(v)
    decreases n, 1
  {
    match n
    case Binop(l, _, r) =>
      BagAllocated(l);
      BagAllocated(r);
    case Unop(_, e) =>
      BagAllocated(e);
    case ValueNode(_) =>
    case Assignment(l, r) =>
      BagAllocated(l);
      BagAllocated(r);
    case StatementList(ss, _) =>
      SiblingsAllocated(n, |ss|);
  }

  lemma SiblingsAllocated(n: Node, k: nat)
    requires n.StatementList? && k <= |n.siblings|
    ensures forall v :: v in SiblingsBag(n, k) ==> allocated(v)
    decreases n, 0, k
  {
    if k > 0 {
      SiblingsAllocated(n, k - 1);
      BagAllocated(n.siblings[k - 1]);
    }
  }

  /** The values of every child are among the values of its parent. */
  lemma ChildValues(n: Node)
    ensures n.Binop? ==> ValuesOf(n.left) <= ValuesOf(n) && ValuesOf(n.right) <= ValuesOf(n)
    ensures n.Unop? ==> ValuesOf(n.rest) == ValuesOf(n)
    ensures n.Assignment? ==> ValuesOf(n.lvalue) <= ValuesOf(n) && ValuesOf(n.rvalue) <= ValuesOf(n)
    ensures n.StatementList? ==> forall k :: 0 <= k < |n.siblings| ==> ValuesOf(n.siblings[k]) <= ValuesOf(n)
  {
    if n.StatementList? {
      forall k | 0 <= k < |n.siblings| ensures ValuesOf(n.siblings[k]) <= ValuesOf(n) {
        SiblingsBagWithin(n, k);
      }
    }
  }

  // ---------------------------------------------------------------------
  // free_node

  /** The values the first `k` siblings hold are among those the whole list holds. */
  lemma {:induction false} SiblingsBagWithin(n: Node, k: nat)
    requires n.StatementList? && k <= |n.siblings|
    ensures SiblingsBag(n, k) <= ValueBag(n)
    ensures k < |n.siblings| ==> SiblingsBag(n, k) + ValueBag(n.siblings[k]) <= ValueBag(n)
    decreases |n.siblings| - k
  {
    if k < |n.siblings| {
      SiblingsBagWithin(n, k + 1);
      assert SiblingsBag(n, k + 1) == SiblingsBag(n, k) + ValueBag(n.siblings[k]);
    } else {
      assert SiblingsBag(n, k) == ValueBag(n);
    }
  }

  /**
   * free_node: every value leaf of the tree is released with value_free, so
   * each stored value loses one reference per leaf holding it, and is
   * handed back exactly when its count reaches zero. The caller must own
   * at least as many references as there are leaves holding the value.
   * `vs` is any set of values, covering those of the tree, whose counts the
   * caller keeps track of.
   */
  method FreeNode(n: Node, ghost vs: set<Value>)
    requires ValuesOf(n) <= vs
    requires forall v :: v in ValuesOf(n) ==> v.Valid() && v.refcount >= ValueBag(n)[v]
    modifies ValuesOf(n)`refcount, ValuesOf(n)`live
    ensures forall v :: v in vs ==> v.refcount == old(v.refcount) - ValueBag(n)[v]
    ensures forall v :: v in ValuesOf(n) ==> (v.live <==> v.refcount > 0) && (v.live ==> v.Valid())
    decreases n, 1
  {
    match n
    case Binop(l, _, r) =>
      FreeBoth(n, l, r, vs);
    case Unop(_, e) =>
      FreeNode(e, vs);
    case ValueNode(v) =>
      v.Free();
    case Assignment(l, r) =>
      FreeBoth(n, l, r, vs);
    case StatementList(ss, _) =>
      FreeSiblings(n, vs);
  }

  /** The two children of a BINOP or ASSIGNMENT node, left first. */
  method FreeBoth(n: Node, l: Node, r: Node, ghost vs: set<Value>)
    requires ValueBag(n) == ValueBag(l) + ValueBag(r) && l < n && r < n
    requires ValuesOf(n) <= vs
    requires forall v :: v in ValuesOf(n) ==> v.Valid() && v.refcount >= ValueBag(n)[v]
    modifies ValuesOf(n)`refcount, ValuesOf(n)`live
    ensures forall v :: v in vs ==> v.refcount == old(v.refcount) - ValueBag(n)[v]
    ensures forall v :: v in ValuesOf(n) ==> (v.live <==> v.refcount > 0) && (v.live ==> v.Valid())
    decreases n, 0
  {
    ValuesAllocated(n);
    FreeNode(l, vs);
    label AfterLeft:
    forall v | v in ValuesOf(r) ensures v.Valid() && v.refcount >= ValueBag(r)[v] {
      assert v in ValuesOf(n);
      assert v in ValuesOf(l) || v.live == old(v.live);
    }
    FreeNode(r, vs);
    forall v | v in ValuesOf(n) ensures (v.live <==> v.refcount > 0) && (v.live ==> v.Valid()) {
      assert v in ValuesOf(r) || v.live == old@AfterLeft(v.live);
    }
  }

  /** The loop of free_node over the `use` siblings of a statement list. */
  method FreeSiblings(n: Node, ghost vs: set<Value>)
    requires n.StatementList? && ValuesOf(n) <= vs
    requires forall v :: v in ValuesOf(n) ==> v.Valid() && v.refcount >= ValueBag(n)[v]
    modifies ValuesOf(n)`refcount, ValuesOf(n)`live
    ensures forall v :: v in vs ==> v.refcount == old(v.refcount) - ValueBag(n)[v]
    ensures forall v :: v in ValuesOf(n) ==> (v.live <==> v.refcount > 0) && (v.live ==> v.Valid())
    decreases n, 0
  {
    var i := 0;
    while i < |n.siblings|
      invariant i <= |n.siblings|
      invariant forall v :: v in vs ==> v.refcount == old(v.refcount) - SiblingsBag(n, i)[v]
      invariant forall v :: v in ValuesOf(n) ==> (v.live <==> v.refcount > 0) && (v.live ==> v.Valid())
    {
      var s := n.siblings[i];
      SiblingsBagWithin(n, i);
      forall v | v in ValuesOf(s) ensures v in ValuesOf(n) && v.Valid() && v.refcount >= ValueBag(s)[v] {
        assert ValueBag(n)[v] >= SiblingsBag(n, i)[v] + ValueBag(s)[v];
      }
      label BeforeFree:
      FreeNode(s, vs);
      forall v | v in ValuesOf(n) ensures (v.live <==> v.refcount > 0) && (v.live ==> v.Valid()) {
        assert v in ValuesOf(s) || v.live == old@BeforeFree(v.live);
      }
      i := i + 1;
    }
  }

  // ---------------------------------------------------------------------
  // Value leaves

  /** parse_num: strtol in base 10, converted to unsigned long. */
  function ParseNum(text: string): (x: u64)
    ensures Signed(x) == Strtol(text)
  {
    Unsigned(Strtol(text))
  }

  /**
   * make_value: a VALUE node over a fresh value holding the parsed number,
   * a scalar when `initSize` is 1 and a one-element vector otherwise.
   */
  method MakeValue(val: string, vtype: ValueType, initSize: nat) returns (n: Node)
    ensures n.ValueNode? && fresh(n.value) && n.value.Valid() && n.value.refcount == 1
    ensures n.value.AsView() == View(vtype, if initSize == 1 then [] else [1], [ParseNum(val)])
  {
    var atom := Atom(vtype, ParseNum(val));
    var v: Value;
    if initSize == 1 {
      v := new Value.MakeSingle(atom);
    } else {
      v := new Value.MakeVector(atom);
    }
    n := ValueNode(v);
  }

  /**
   * extend_vector: append the parsed number to the vector a VALUE node
   * holds; the node itself is returned.
   */
  method ExtendVector(vec: Node, val: string, vtype: ValueType) returns (r: Node)
    requires vec.ValueNode? && vec.value.Valid() && vec.value.rank >= 1 && vec.value.vtype == vtype
    requires vec.value.ecount + 1 < TWO_64
    modifies vec.value`acount, vec.value`sd, vec.value`ecount
    ensures r == vec && r.value.Valid()
    ensures r.value.Elems() == old(vec.value.Elems()) + [ParseNum(val)]
    ensures r.value.Shape() == [old(vec.value.ecount) + 1]
  {
    vec.value.Append(Atom(vtype, ParseNum(val)));
    r := vec;
  }

  // ---------------------------------------------------------------------
  // Stringify

  /**
   * The text Stringify produces: "L op R" for a BINOP, "op R" for a UNOP,
   * value_stringify for a VALUE, "<L> := <R>" for an ASSIGNMENT, and
   * "<" s "> " for each statement of a list, in order.
   */
  function Show(n: Node): string
    requires AllShaped(ValuesOf(n))
    reads ValuesOf(n)`rank, ValuesOf(n)`ecount, ValuesOf(n)`acount, ValuesOf(n)`sd
    decreases n, 1
  {
    ChildValues(n);
    match n
    case Binop(l, d, r) => Show(l) + " " + d + " " + Show(r)
    case Unop(m, e) => m + " " + Show(e)
    case ValueNode(v) => Render(v.Elems())
    case Assignment(l, r) => "<" + Show(l) + "> := <" + Show(r) + ">"
    case StatementList(ss, _) => ShowSiblings(n, |ss|)
  }

  /** The rendering of the first `k` statements of a list. */
  function ShowSiblings(n: Node, k: nat): string
    requires n.StatementList? && k <= |n.siblings| && AllShaped(ValuesOf(n))
    reads ValuesOf(n)`rank, ValuesOf(n)`ecount, ValuesOf(n)`acount, ValuesOf(n)`sd
    decreases n, 0, k
  {
    if k == 0 then ""
    else
      ChildValues(n);
      ShowSiblings(n, k - 1) + "<" + Show(n.siblings[k - 1]) + "> "
  }

  /** The summed lengths of `ts`. */
  function TotalLength(ts: seq<string>): nat
  {
    if ts == [] then 0 else TotalLength(ts[..|ts| - 1]) + |ts[|ts| - 1]|
  }

  lemma TotalLengthSnoc(ts: seq<string>, t: string)
    ensures TotalLength(ts + [t]) == TotalLength(ts) + |t|
  {
    assert (ts + [t])[..|ts|] == ts;
  }

  lemma {:induction false} TotalLengthPrefix(ts: seq<string>, i: nat)
    requires i < |ts|
    ensures TotalLength(ts[..i]) + |ts[i]| <= TotalLength(ts)
    decreases |ts|
  {
    if i < |ts| - 1 {
      assert ts[..|ts| - 1][..i] == ts[..i];
      TotalLengthPrefix(ts[..|ts| - 1], i);
    } else {
      assert ts[..|ts| - 1] == ts[..i];
    }
  }

  /**
   * Stringify: the text of every node is Show. For a BINOP the buffer is
   * exactly llen + dlen + rlen + 2 characters long, for a UNOP
   * strlen(monad) + strlen(rest) + 1.
   */
  method Stringify(n: Node) returns (s: string)
    requires AllValid(ValuesOf(n))
    ensures s == Show(n)
    ensures n.Binop? ==> |s| == |Show(n.left)| + |n.dyad| + |Show(n.right)| + 2
    ensures n.Unop? ==> |s| == |n.monad| + |Show(n.rest)| + 1
    decreases n, 2
  {
    ChildValues(n);
    ValuesAllocated(n);
    match n
    case Binop(l, d, r) =>
      var left := Stringify(l);
      var right := Stringify(r);
      s := left + " " + d + " " + right;
    case Unop(m, e) =>
      var rest := Stringify(e);
      s := m + " " + rest;
    case ValueNode(v) =>
      s := v.Stringify();
    case Assignment(l, r) =>
      var lv := Stringify(l);
      var rv := Stringify(r);
      s := "<" + lv + "> := <" + rv + ">";
    case StatementList(_, _) =>
      s := StringifyList(n);
  }

  /**
   * The STATEMENT_LIST case: stringify every sibling, then copy
   * "<" s_i "> " for each into one buffer of total_len + 3 * use + 1
   * characters.
   */
  method StringifyList(n: Node) returns (s: string)
    requires n.StatementList? && AllValid(ValuesOf(n))
    ensures s == ShowSiblings(n, |n.siblings|)
    decreases n, 1
  {
    ValuesAllocated(n);
    ChildValues(n);
    var strs, total := StringifyEach(n);
    BracketedSiblings(n, |n.siblings|);
    var buf;
    s, buf := CopyBracketed(strs, total);
  }

  /** Each text in `ts` as "<" t "> ", in order. */
  function Bracketed(ts: seq<string>): string
  {
    if ts == [] then "" else Bracketed(ts[..|ts| - 1]) + "<" + ts[|ts| - 1] + "> "
  }

  /** The rendering of each of the first `k` statements of a list, in order. */
  function ShowEach(n: Node, k: nat): (r: seq<string>)
    requires n.StatementList? && k <= |n.siblings| && AllShaped(ValuesOf(n))
    reads ValuesOf(n)`rank, ValuesOf(n)`ecount, ValuesOf(n)`acount, ValuesOf(n)`sd
    ensures |r| == k
    ensures forall j :: 0 <= j < k ==> AllShaped(ValuesOf(n.siblings[j])) && r[j] == Show(n.siblings[j])
    decreases k
  {
    ChildValues(n);
    if k == 0 then []
    else
      ChildValues(n);
      ShowEach(n, k - 1) + [Show(n.siblings[k - 1])]
  }

  /** A list renders as its statements' texts, each bracketed. */
  lemma {:induction false} BracketedSiblings(n: Node, k: nat)
    requires n.StatementList? && k <= |n.siblings| && AllShaped(ValuesOf(n))
    ensures ShowSiblings(n, k) == Bracketed(ShowEach(n, k))
    decreases k
  {
    if k > 0 {
      BracketedSiblings(n, k - 1);
      assert ShowEach(n, k)[..k - 1] == ShowEach(n, k - 1);
    }
  }

  /** The first loop: the text of each sibling and their summed lengths. */
  method StringifyEach(n: Node) returns (strs: seq<string>, total: nat)
    requires n.StatementList? && AllValid(ValuesOf(n))
    ensures AllShaped(ValuesOf(n)) && strs == ShowEach(n, |n.siblings|) && total == TotalLength(strs)
    decreases n, 0
  {
    var ss := n.siblings;
    ChildValues(n);
    ValuesAllocated(n);
    ghost var want := ShowEach(n, |ss|);
    strs := [];
    total := 0;
    var i := 0;
    while i < |ss|
      invariant i <= |ss| && strs == want[..i]
      invariant AllValid(ValuesOf(n))
      invariant total == TotalLength(strs)
    {
      var t := Stringify(ss[i]);
      assert t == want[i];
      TotalLengthSnoc(strs, t);
      PrefixSnoc(want, i);
      strs := strs + [t];
      total := total + |t|;
      i := i + 1;
    }
    assert want[..|ss|] == want;
  }

  lemma PrefixSnoc<T>(s: seq<T>, i: nat)
    requires i < |s|
    ensures s[..i + 1] == s[..i] + [s[i]]
  {
  }

  /**
   * The second loop: copy "<" s_i "> " for each text into a buffer of
   * total + 3 * |strs| + 1 characters, then the NUL after the copies. The
   * copies fill all but the last byte, which the NUL takes.
   */
  method CopyBracketed(strs: seq<string>, total: nat) returns (s: string, buf: array<char>)
    requires total == TotalLength(strs)
    ensures s == Bracketed(strs)
    ensures buf.Length == total + 3 * |strs| + 1 && |s| + 1 == buf.Length
    ensures buf[..|s|] == s && buf[|s|] == '\0'
  {
    var res := new char[total + 3 * |strs| + 1];
    var pos := 0;
    var i := 0;
    while i < |strs|
      invariant i <= |strs|
      invariant pos == TotalLength(strs[..i]) + 3 * i <= total + 3 * |strs|
      invariant res[..pos] == Bracketed(strs[..i])
    {
      TotalLengthPrefix(strs, i);
      BracketedStep(strs, i);
      CopyOne(res, pos, strs[i]);
      pos := pos + 1 + |strs[i]| + 2;
      i := i + 1;
    }
    assert strs[..|strs|] == strs;
    res[pos] := '\0';
    s := res[..pos];
    buf := res;
  }

  /**
   * The index Stringify writes a list's NUL at, as written: the running
   * length after the copies, which already counts the three bracket
   * characters of each statement, plus those characters once more.
   */
  function ListNulAtAsWritten(strs: seq<string>): nat
  {
    (TotalLength(strs) + 3 * |strs|) + 3 * |strs|
  }

  /**
   * As written, a list of one statement "1" gets a buffer of 5 bytes and
   * its NUL at index 7; for every non-empty list the NUL lands past the
   * buffer's end.
   */
  lemma ListNulOverruns(strs: seq<string>)
    ensures TotalLength(["1"]) + 3 * 1 + 1 == 5 && ListNulAtAsWritten(["1"]) == 7
    ensures |strs| > 0 ==> ListNulAtAsWritten(strs) >= TotalLength(strs) + 3 * |strs| + 1
  {
    assert ["1"][..0] == [];
  }

  /** The body of the second loop: memcpy of "<", then `t`, then "> ", at `pos`. */
  method CopyOne(res: array<char>, pos: nat, t: string)
    requires pos + 1 + |t| + 2 <= res.Length
    modifies res
    ensures res[..pos + 1 + |t| + 2] == old(res[..pos]) + "<" + t + "> "
  {
    Memcpy(res, pos, "<");
    Memcpy(res, pos + 1, t);
    Memcpy(res, pos + 1 + |t|, "> ");
  }

  /** One more string, bracketed, and its length. */
  lemma BracketedStep(strs: seq<string>, i: nat)
    requires i < |strs|
    ensures Bracketed(strs[..i + 1]) == Bracketed(strs[..i]) + "<" + strs[i] + "> "
    ensures TotalLength(strs[..i + 1]) == TotalLength(strs[..i]) + |strs[i]|
  {
    assert strs[..i + 1][..i] == strs[..i];
  }

  /** memcpy of `t` into `buf` at `pos`. */
  method Memcpy(buf: array<char>, pos: nat, t: string)
    requires pos + |t| <= buf.Length
    modifies buf
    ensures buf[..pos + |t|] == old(buf[..pos]) + t
  {
    var k := 0;
    while k < |t|
      invariant k <= |t|
      invariant buf[..pos + k] == old(buf[..pos]) + t[..k]
    {
      buf[pos + k] := t[k];
      assert buf[..pos + k + 1] == buf[..pos + k] + [t[k]];
      assert t[..k + 1] == t[..k] + [t[k]];
      k := k + 1;
    }
    assert t[..k] == t;
  }
}
