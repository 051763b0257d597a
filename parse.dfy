/**
 * The older recursive-descent parser of src/parse/parse.c: a parser with a
 * one-token lookahead buffer over a token stream, the grammar
 *
 *   expr    ::= operand | operand OPERATOR expr
 *   operand ::= "(" expr ")" | NUMBER | OPERATOR expr
 *
 * building right-nested trees of `long` numbers, and the tree's `long`
 * evaluation and printing.
 */
module Parse {
  import opened Common
  import opened Tokens

  /** The lookahead buffer's capacity (BUF_CAP). */
  const BUF_CAP: nat := 1

  /** A token as get_type / get_value report it. */
  datatype PToken = PToken(ttype: TokenType, text: string)

  /** What the stream yields once it is exhausted. */
  const EOF_TOKEN: PToken := PToken(Eof, "")

  /** read_token: the `i`-th token of the stream; EOF once it runs out. */
  function Read(ts: seq<PToken>, i: nat): (t: PToken)
    ensures t.ttype != Eof ==> i < |ts|
  {
    if i < |ts| then ts[i] else EOF_TOKEN
  }

  /** The tree of parse.c: numbers, binary and unary operations. */
  datatype PExpr =
    | Binop(left: PExpr, dyad: string, right: PExpr)
    | Num(value: int)
    | Unop(monad: string, rest: PExpr)

  /** The token an assert(0) in Expr or Op rejects, or the token found where ")" belongs. */
  datatype ParseError = Unexpected(tok: PToken) | MissingRParen(tok: PToken)

  /** A parsed tree and the index of the first token not consumed. */
  datatype Parsed = Parsed(tree: PExpr, next: nat)

  // ---------------------------------------------------------------------
  // The grammar, as functions of the token stream

  /**
   * Expr(p, t) where `t` is token `i`: an operand, then the lookahead
   * decides. EOF and ")" end the expression unconsumed; an OPERATOR is
   * consumed and the rest of the input is the right operand.
   */
  function Expr(ts: seq<PToken>, i: nat): (r: Result<Parsed, ParseError>)
    requires i <= |ts|
    ensures r.Ok? ==> i < r.value.next <= |ts|
    ensures r.Ok? ==> Read(ts, r.value.next).ttype in {Eof, RParen}
    decreases |ts| - i, 1
  {
    match Op(ts, i)
    case Err(e) => Err(e)
    case Ok(Parsed(e, j)) =>
      var la := Read(ts, j);
      if la.ttype == Eof || la.ttype == RParen then Ok(Parsed(e, j))
      else if la.ttype == Operator then
        match Expr(ts, j + 1)
        case Err(err) => Err(err)
        case Ok(Parsed(right, k)) => Ok(Parsed(Binop(e, la.text, right), k))
      else Err(Unexpected(la))
  }

  /**
   * Op(p, t) where `t` is token `i`: a parenthesised expression, a number
   * read by strtol, or an operator applied to the expression that follows.
   */
  function Op(ts: seq<PToken>, i: nat): (r: Result<Parsed, ParseError>)
    requires i <= |ts|
    ensures r.Ok? ==> i < r.value.next <= |ts|
    decreases |ts| - i, 0
  {
    var t := Read(ts, i);
    match t.ttype
    case LParen =>
      (match Expr(ts, i + 1)
       case Err(e) => Err(e)
       case Ok(Parsed(e, j)) =>
         var c := Read(ts, j);
         if c.ttype == RParen then Ok(Parsed(e, j + 1)) else Err(MissingRParen(c)))
    case Number => Ok(Parsed(Num(Strtol(t.text)), i + 1))
    case Operator =>
      (match Expr(ts, i + 1)
       case Err(e) => Err(e)
       case Ok(Parsed(e, j)) => Ok(Parsed(Unop(t.text, e), j)))
    case _ => Err(Unexpected(t))
  }

  // ---------------------------------------------------------------------
  // The parser object

  class Parser {
    /** The token stream read_token draws from. */
    const input: seq<PToken>
    /** How many tokens read_token has delivered. */
    var cursor: nat
    const buf: array<PToken>
    var bufUse: nat
    var bufCap: nat
    var lastPopped: Option<PToken>

    /** The buffer holds at most one token: the one read_token delivered last. */
    ghost predicate Valid()
      reads this, buf
    {
      && buf.Length == BUF_CAP && bufCap == BUF_CAP
      && bufUse <= bufCap && bufUse <= cursor
      && (bufUse == 1 ==> buf[0] == Read(input, cursor - 1))
    }

    /** The index of the token the next call of `next` returns. */
    ghost function Pos(): nat
      requires bufUse <= cursor
      reads this
    {
      cursor - bufUse
    }

    /** make_parser: an empty buffer, nothing read yet. */
    constructor (ts: seq<PToken>)
      ensures Valid() && input == ts && cursor == 0 && bufUse == 0 && lastPopped == None
      ensures fresh(buf)
    {
      input := ts;
      cursor := 0;
      buf := new PToken[BUF_CAP](_ => EOF_TOKEN);
      bufUse := 0;
      bufCap := BUF_CAP;
      lastPopped := None;
    }

    /** read_token on the parser's stream. */
    method ReadToken() returns (t: PToken)
      modifies this`cursor
      ensures t == Read(input, old(cursor)) && cursor == old(cursor) + 1
    {
      t := Read(input, cursor);
      cursor := cursor + 1;
    }

    /**
     * peek: fill the buffer only when it is empty; either way the token
     * returned is the next one and nothing is consumed, so repeated peeks
     * return the same token.
     */
    method Peek() returns (t: PToken)
      requires Valid()
      modifies this`cursor, this`bufUse, buf
      ensures Valid() && bufUse == 1 && Pos() == old(Pos())
      ensures t == Read(input, Pos())
      ensures old(bufUse) == 1 ==> cursor == old(cursor)
    {
      if bufUse < bufCap {
        var x := ReadToken();
        buf[bufUse] := x;
        bufUse := bufUse + 1;
      }
      t := buf[bufUse - 1];
    }

    /**
     * next: pop the buffered token if there is one, otherwise read a fresh
     * one; either way it is the next token, so a peek followed by next
     * yields the same token.
     */
    method Next() returns (t: PToken)
      requires Valid()
      modifies this`cursor, this`bufUse, this`lastPopped
      ensures Valid() && bufUse == 0 && Pos() == old(Pos()) + 1
      ensures t == Read(input, old(Pos())) && lastPopped == Some(t)
    {
      if bufUse > 0 {
        lastPopped := Some(buf[bufUse - 1]);
        bufUse := bufUse - 1;
      } else {
        var x := ReadToken();
        lastPopped := Some(x);
      }
      t := lastPopped.value;
    }

    /**
     * Expr(p, t) with `t` the token at `i`, just returned by `next`: the
     * tree and the position left behind are those the grammar gives.
     */
    method ParseExpr(t: PToken, ghost i: nat) returns (r: Result<PExpr, ParseError>)
      requires Valid() && bufUse == 0 && i + 1 == Pos() && i <= |input| && t == Read(input, i)
      modifies this`cursor, this`bufUse, this`lastPopped, buf
      ensures Valid()
      ensures r.Err? <==> Expr(input, i).Err?
      ensures r.Err? ==> r.error == Expr(input, i).error
      ensures r.Ok? ==> r.value == Expr(input, i).value.tree && Pos() == Expr(input, i).value.next
      decreases |input| - i, 1
    {
      var o := ParseOp(t, i);
      if o.Err? {
        return Err(o.error);
      }
      ghost var j := Pos();
      var la := Peek();
      if la.ttype == Eof || la.ttype == RParen {
        return Ok(o.value);
      } else if la.ttype == Operator {
        var op := Next();
        var t2 := Next();
        var right := ParseExpr(t2, j + 1);
        if right.Err? {
          return Err(right.error);
        }
        return Ok(Binop(o.value, op.text, right.value));
      } else {
        return Err(Unexpected(la));
      }
    }

    /** Op(p, t) with `t` the token at `i`, just returned by `next`. */
    method ParseOp(t: PToken, ghost i: nat) returns (r: Result<PExpr, ParseError>)
      requires Valid() && bufUse == 0 && i + 1 == Pos() && i <= |input| && t == Read(input, i)
      modifies this`cursor, this`bufUse, this`lastPopped, buf
      ensures Valid()
      ensures r.Err? <==> Op(input, i).Err?
      ensures r.Err? ==> r.error == Op(input, i).error
      ensures r.Ok? ==> r.value == Op(input, i).value.tree && Pos() == Op(input, i).value.next
      decreases |input| - i, 0
    {
      match t.ttype
      case LParen =>
        var t2 := Next();
        var e := ParseExpr(t2, i + 1);
        if e.Err? {
          return Err(e.error);
        }
        var c := Next();
        if c.ttype != RParen {
          return Err(MissingRParen(c));
        }
        return Ok(e.value);
      case Number =>
        return Ok(Num(Strtol(t.text)));
      case Operator =>
        var t2 := Next();
        var e := ParseExpr(t2, i + 1);
        if e.Err? {
          return Err(e.error);
        }
        return Ok(Unop(t.text, e.value));
      case _ =>
        return Err(Unexpected(t));
    }
  }

  /**
   * The parse step of parse(): Expr(p, next(p)) on a fresh parser. The tree
   * is the grammar's parse of the whole stream from its first token.
   */
  method ParseStream(ts: seq<PToken>) returns (r: Result<PExpr, ParseError>)
    ensures r.Err? <==> Expr(ts, 0).Err?
    ensures r.Ok? ==> r.value == Expr(ts, 0).value.tree
  {
    var p := new Parser(ts);
    var t := p.Next();
    r := p.ParseExpr(t, 0);
  }

  // ---------------------------------------------------------------------
  // eval and stringify

  /** eval: BINOP adds, NUMBER is its value, UNOP passes its operand through. */
  function Eval(e: PExpr): int
  {
    match e
    case Binop(l, _, r) => Eval(l) + Eval(r)
    case Num(v) => v
    case Unop(_, r) => Eval(r)
  }

  /** stringify: "L op R", "%ld", "op R". */
  function Show(e: PExpr): string
  {
    match e
    case Binop(l, d, r) => Show(l) + " " + d + " " + Show(r)
    case Num(v) => LongText(v)
    case Unop(m, r) => m + " " + Show(r)
  }

  /** The numbers of the tree, left to right. */
  function Leaves(e: PExpr): seq<int>
  {
    match e
    case Binop(l, _, r) => Leaves(l) + Leaves(r)
    case Num(v) => [v]
    case Unop(_, r) => Leaves(r)
  }

  function Sum(xs: seq<int>): int
  {
    if xs == [] then 0 else xs[0] + Sum(xs[1..])
  }

  lemma {:induction false} SumAppend(xs: seq<int>, ys: seq<int>)
    ensures Sum(xs + ys) == Sum(xs) + Sum(ys)
    decreases |xs|
  {
    if xs != [] {
      assert (xs + ys)[0] == xs[0];
      assert (xs + ys)[1..] == xs[1..] + ys;
      SumAppend(xs[1..], ys);
    } else {
      assert xs + ys == ys;
    }
  }

  /** Every operator is read as "+": eval is the sum of the numbers in the tree. */
  lemma {:induction false} EvalIsSum(e: PExpr)
    ensures Eval(e) == Sum(Leaves(e))
  {
    match e
    case Binop(l, _, r) =>
      EvalIsSum(l);
      EvalIsSum(r);
      SumAppend(Leaves(l), Leaves(r));
    case Num(v) =>
      assert Sum([v]) == v + Sum([]);
    case Unop(_, r) =>
      EvalIsSum(r);
  }

  // ---------------------------------------------------------------------
  // Printing and parsing back

  /**
   * The trees stringify prints unambiguously: every left operand is a
   * number (stringify prints no parentheses), numbers are `long`s, and
   * operator texts are single words.
   */
  predicate Canonical(e: PExpr)
  {
    match e
    case Binop(l, d, r) => l.Num? && Canonical(l) && Word(d) && Canonical(r)
    case Num(v) => LONG_MIN <= v <= LONG_MAX
    case Unop(m, r) => Word(m) && Canonical(r)
  }

  predicate Word(w: string)
  {
    |w| >= 1 && ' ' !in w
  }

  /** The tokens stringify's text stands for: a NUMBER per number, an OPERATOR per operator. */
  function TokensOf(e: PExpr): (ts: seq<PToken>)
    ensures |ts| >= 1
  {
    match e
    case Binop(l, d, r) => TokensOf(l) + [PToken(Operator, d)] + TokensOf(r)
    case Num(v) => [PToken(Number, LongText(v))]
    case Unop(m, r) => [PToken(Operator, m)] + TokensOf(r)
  }

  /** The texts of a token sequence, in order. */
  function Texts(ts: seq<PToken>): (ws: seq<string>)
  {
    seq(|ts|, k requires 0 <= k < |ts| => ts[k].text)
  }

  lemma TextsAppend(a: seq<PToken>, b: seq<PToken>)
    ensures Texts(a + b) == Texts(a) + Texts(b)
  {
    forall k | 0 <= k < |a| + |b|
      ensures Texts(a + b)[k] == (Texts(a) + Texts(b))[k]
    {
      if k < |a| {
        assert (a + b)[k] == a[k];
      } else {
        assert (a + b)[k] == b[k - |a|];
      }
    }
  }

  /** stringify writes the texts of its tokens separated by single spaces. */
  lemma {:induction false} ShowIsJoin(e: PExpr)
    ensures Show(e) == JoinSpaces(Texts(TokensOf(e)))
  {
    match e
    case Binop(l, d, r) =>
      ShowIsJoin(l);
      ShowIsJoin(r);
      var a := Texts(TokensOf(l));
      var b := Texts(TokensOf(r));
      TextsAppend(TokensOf(l) + [PToken(Operator, d)], TokensOf(r));
      TextsAppend(TokensOf(l), [PToken(Operator, d)]);
      assert Texts([PToken(Operator, d)]) == [d];
      assert Texts(TokensOf(e)) == (a + [d]) + b;
      JoinAppend(a + [d], b);
      JoinSpacesSnoc(a, d);
    case Num(v) =>
    case Unop(m, r) =>
      ShowIsJoin(r);
      TextsAppend([PToken(Operator, m)], TokensOf(r));
      var b := Texts(TokensOf(r));
      assert ([m] + b)[1..] == b;
  }

  lemma {:induction false} JoinAppend(a: seq<string>, b: seq<string>)
    requires |a| >= 1 && |b| >= 1
    ensures JoinSpaces(a + b) == JoinSpaces(a) + " " + JoinSpaces(b)
    decreases |a|
  {
    if |a| == 1 {
      assert (a + b)[1..] == b;
    } else {
      assert (a + b)[1..] == a[1..] + b;
      JoinAppend(a[1..], b);
    }
  }

  /**
   * Print then parse: a stream that starts with the tokens of a canonical
   * tree, followed by EOF or ")", parses back to the same tree and stops
   * before that token.
   */
  lemma ParseTokensOf(e: PExpr, ts: seq<PToken>)
    requires Canonical(e) && |TokensOf(e)| < |ts| && ts[0..|TokensOf(e)|] == TokensOf(e)
    requires ts[|TokensOf(e)|].ttype in {Eof, RParen}
    ensures Expr(ts, 0) == Ok(Parsed(e, |TokensOf(e)|))
  {
    TokensLaid(e, ts, 0);
    ParseLaid(e, ts, 0, |TokensOf(e)|);
  }

  /**
   * The tokens from `i` up to `k` spell `e` in the grammar's terms: a
   * NUMBER whose strtol value is the number; an OPERATOR, then the
   * operand; a NUMBER and an OPERATOR, then the right operand.
   */
  ghost predicate Laid(e: PExpr, ts: seq<PToken>, i: nat, k: nat)
    decreases e
  {
    match e
    case Num(v) => LONG_MIN <= v <= LONG_MAX && k == i + 1 <= |ts| && ts[i] == PToken(Number, LongText(v))
    case Unop(m, r) => i < |ts| && ts[i] == PToken(Operator, m) && Laid(r, ts, i + 1, k)
    case Binop(l, d, r) =>
      && l.Num? && LONG_MIN <= l.value <= LONG_MAX && i + 1 < |ts| && ts[i] == PToken(Number, LongText(l.value))
      && ts[i + 1] == PToken(Operator, d) && Laid(r, ts, i + 2, k)
  }

  /** Tokens laid out as `e` and followed by EOF or ")" parse as `e`, up to that token. */
  lemma {:induction false} ParseLaid(e: PExpr, ts: seq<PToken>, i: nat, k: nat)
    requires Laid(e, ts, i, k) && Read(ts, k).ttype in {Eof, RParen}
    ensures i < |ts| && Expr(ts, i) == Ok(Parsed(e, k))
    decreases e
  {
    match e
    case Num(v) =>
      StrtolLongText(v);
      ExprNum(ts, i, LongText(v), v);
    case Unop(m, r) =>
      ParseLaid(r, ts, i + 1, k);
      OpUnop(ts, i, m, r, k);
    case Binop(l, d, r) =>
      ParseLaid(r, ts, i + 2, k);
      StrtolLongText(l.value);
      ExprBinop(ts, i, LongText(l.value), l.value, d, r, k);
  }

  /** The tokens of a canonical tree, found at index `i`, are laid out as that tree. */
  lemma {:induction false} TokensLaid(e: PExpr, ts: seq<PToken>, i: nat)
    requires Canonical(e) && i + |TokensOf(e)| <= |ts| && ts[i..i + |TokensOf(e)|] == TokensOf(e)
    ensures Laid(e, ts, i, i + |TokensOf(e)|)
    decreases e, 1
  {
    match e
    case Num(v) => NumLaid(v, ts, i);
    case Unop(m, r) => UnopLaid(m, r, ts, i);
    case Binop(l, d, r) => BinopLaid(l.value, d, r, ts, i);
  }

  lemma NumLaid(v: int, ts: seq<PToken>, i: nat)
    requires Canonical(Num(v)) && i + |TokensOf(Num(v))| <= |ts| && ts[i..i + |TokensOf(Num(v))|] == TokensOf(Num(v))
    ensures Laid(Num(v), ts, i, i + |TokensOf(Num(v))|)
  {
    NumToken(v, ts, i);
  }

  lemma {:induction false} UnopLaid(m: string, r: PExpr, ts: seq<PToken>, i: nat)
    requires Canonical(Unop(m, r)) && i + |TokensOf(Unop(m, r))| <= |ts|
    requires ts[i..i + |TokensOf(Unop(m, r))|] == TokensOf(Unop(m, r))
    ensures Laid(Unop(m, r), ts, i, i + |TokensOf(Unop(m, r))|)
    decreases Unop(m, r), 0
  {
    UnopTokens(m, r, ts, i);
    TokensLaid(r, ts, i + 1);
  }

  lemma {:induction false} BinopLaid(v: int, d: string, r: PExpr, ts: seq<PToken>, i: nat)
    requires Canonical(Binop(Num(v), d, r)) && i + |TokensOf(Binop(Num(v), d, r))| <= |ts|
    requires ts[i..i + |TokensOf(Binop(Num(v), d, r))|] == TokensOf(Binop(Num(v), d, r))
    ensures Laid(Binop(Num(v), d, r), ts, i, i + |TokensOf(Binop(Num(v), d, r))|)
    decreases Binop(Num(v), d, r), 0
  {
    BinopTokens(v, d, r, ts, i);
    TokensLaid(r, ts, i + 2);
  }

  /** Where the token of a number sits in the stream. */
  lemma NumToken(v: int, ts: seq<PToken>, i: nat)
    requires i + |TokensOf(Num(v))| <= |ts| && ts[i..i + |TokensOf(Num(v))|] == TokensOf(Num(v))
    ensures |TokensOf(Num(v))| == 1 && ts[i] == PToken(Number, LongText(v))
  {
    assert ts[i] == ts[i..i + 1][0];
  }

  /** Where the tokens of a unary operation sit in the stream. */
  lemma UnopTokens(m: string, r: PExpr, ts: seq<PToken>, i: nat)
    requires i + |TokensOf(Unop(m, r))| <= |ts|
    requires ts[i..i + |TokensOf(Unop(m, r))|] == TokensOf(Unop(m, r))
    ensures |TokensOf(Unop(m, r))| == 1 + |TokensOf(r)|
    ensures ts[i] == PToken(Operator, m) && ts[i + 1..i + 1 + |TokensOf(r)|] == TokensOf(r)
  {
    SliceSplit(ts, i, [PToken(Operator, m)], TokensOf(r));
    assert ts[i] == ts[i..i + 1][0];
  }

  /** Where the tokens of a binary operation sit in the stream. */
  lemma BinopTokens(v: int, d: string, r: PExpr, ts: seq<PToken>, i: nat)
    requires i + |TokensOf(Binop(Num(v), d, r))| <= |ts|
    requires ts[i..i + |TokensOf(Binop(Num(v), d, r))|] == TokensOf(Binop(Num(v), d, r))
    ensures |TokensOf(Binop(Num(v), d, r))| == 2 + |TokensOf(r)|
    ensures ts[i] == PToken(Number, LongText(v)) && ts[i + 1] == PToken(Operator, d)
    ensures ts[i + 2..i + 2 + |TokensOf(r)|] == TokensOf(r)
  {
    var head := [PToken(Number, LongText(v)), PToken(Operator, d)];
    assert TokensOf(Binop(Num(v), d, r)) == head + TokensOf(r);
    SliceSplit(ts, i, head, TokensOf(r));
    assert ts[i] == ts[i..i + 2][0] && ts[i + 1] == ts[i..i + 2][1];
  }

  lemma SliceSplit(ts: seq<PToken>, i: nat, a: seq<PToken>, b: seq<PToken>)
    requires i + |a| + |b| <= |ts| && ts[i..i + |a| + |b|] == a + b
    ensures ts[i..i + |a|] == a && ts[i + |a|..i + |a| + |b|] == b
  {
    assert ts[i..i + |a|] == (a + b)[..|a|];
    assert ts[i + |a|..i + |a| + |b|] == (a + b)[|a|..];
  }

  lemma ExprNum(ts: seq<PToken>, i: nat, text: string, v: int)
    requires i < |ts| && ts[i] == PToken(Number, text)
    requires Strtol(text) == v
    requires Read(ts, i + 1).ttype in {Eof, RParen}
    ensures Expr(ts, i) == Ok(Parsed(Num(v), i + 1))
  {
    OpNum(ts, i, text, v);
  }

  lemma OpUnop(ts: seq<PToken>, i: nat, m: string, r: PExpr, k: nat)
    requires i < |ts| && ts[i] == PToken(Operator, m)
    requires Expr(ts, i + 1) == Ok(Parsed(r, k))
    requires Read(ts, k).ttype in {Eof, RParen}
    ensures Expr(ts, i) == Ok(Parsed(Unop(m, r), k))
  {
    assert Op(ts, i) == Ok(Parsed(Unop(m, r), k));
  }

  lemma ExprBinop(ts: seq<PToken>, i: nat, text: string, v: int, d: string, r: PExpr, k: nat)
    requires i + 1 < |ts| && ts[i] == PToken(Number, text) && ts[i + 1] == PToken(Operator, d)
    requires Strtol(text) == v
    requires Expr(ts, i + 2) == Ok(Parsed(r, k))
    ensures Expr(ts, i) == Ok(Parsed(Binop(Num(v), d, r), k))
  {
    OpNum(ts, i, text, v);
    assert Read(ts, i + 1) == PToken(Operator, d);
  }

  lemma OpNum(ts: seq<PToken>, i: nat, text: string, v: int)
    requires i < |ts| && ts[i] == PToken(Number, text)
    requires Strtol(text) == v
    ensures Op(ts, i) == Ok(Parsed(Num(v), i + 1))
  {
    assert Read(ts, i) == ts[i];
  }

  /**
   * Stringify's text splits at its spaces into exactly the texts of the
   * tokens that parse back to the tree.
   */
  lemma PrintedWords(e: PExpr)
    requires Canonical(e)
    ensures SplitSpaces(Show(e)) == Texts(TokensOf(e))
  {
    ShowIsJoin(e);
    TokenTextsAreWords(e);
    SplitJoin(Texts(TokensOf(e)));
  }

  lemma {:induction false} TokenTextsAreWords(e: PExpr)
    requires Canonical(e)
    ensures forall k :: 0 <= k < |TokensOf(e)| ==> ' ' !in TokensOf(e)[k].text
  {
    match e
    case Binop(l, d, r) =>
      TokenTextsAreWords(l);
      TokenTextsAreWords(r);
    case Num(v) =>
    case Unop(m, r) =>
      TokenTextsAreWords(r);
  }

  // ---------------------------------------------------------------------
  // free_node

  /**
   * A node of a tree, named by the child steps that lead to it from the
   * root: 0 is the left operand of a BINOP or the operand of a UNOP, 1 the
   * right operand of a BINOP.
   */
  predicate IsNode(e: PExpr, p: seq<nat>)
    decreases |p|
  {
    || p == []
    || match e
       case Binop(l, _, r) => (p[0] == 0 && IsNode(l, p[1..])) || (p[0] == 1 && IsNode(r, p[1..]))
       case Num(_) => false
       case Unop(_, r) => p[0] == 0 && IsNode(r, p[1..])
  }

  /** No node is released twice. */
  predicate Distinct(freed: seq<seq<nat>>)
  {
    forall i, j :: 0 <= i < j < |freed| ==> freed[i] != freed[j]
  }

  /** No node is released before a node below it, whose address it holds. */
  predicate ChildrenFirst(freed: seq<seq<nat>>)
  {
    forall i, j :: 0 <= i < j < |freed| ==> !(freed[i] < freed[j])
  }

  /**
   * free_node as written: a BINOP frees its two operand nodes and itself, a
   * UNOP its operand node and itself, each with a plain free, and a NUMBER
   * frees nothing. The nodes released, in order.
   */
  function FreeNodeAsWritten(e: PExpr): (freed: seq<seq<nat>>)
    ensures forall p :: p in freed ==> IsNode(e, p) && |p| <= 1
    ensures Distinct(freed) && ChildrenFirst(freed)
    ensures e.Num? <==> freed == []
  {
    match e
    case Binop(_, _, _) => [[0], [1], []]
    case Num(_) => []
    case Unop(_, _) => [[0], []]
  }

  /**
   * free_node leaks: the left operand of a nested BINOP is never released,
   * and neither is a tree that is a single NUMBER.
   */
  lemma FreeNodeLeaks()
    ensures IsNode(Binop(Binop(Num(1), "+", Num(2)), "+", Num(3)), [0, 0])
    ensures [0, 0] !in FreeNodeAsWritten(Binop(Binop(Num(1), "+", Num(2)), "+", Num(3)))
    ensures IsNode(Num(1), []) && [] !in FreeNodeAsWritten(Num(1))
  {
    assert IsNode(Binop(Num(1), "+", Num(2)), [0]);
  }

  /** The nodes of `freed`, one step further down: below child `k`. */
  function Under(k: nat, freed: seq<seq<nat>>): (r: seq<seq<nat>>)
    ensures |r| == |freed|
    ensures forall j :: 0 <= j < |r| ==> r[j] == [k] + freed[j]
  {
    seq(|freed|, j requires 0 <= j < |freed| => [k] + freed[j])
  }

  /**
   * free_node as intended: release both operand trees, then the node
   * itself, for every kind of node.
   */
  function FreeTree(e: PExpr): (freed: seq<seq<nat>>)
  {
    match e
    case Binop(l, _, r) => Under(0, FreeTree(l)) + Under(1, FreeTree(r)) + [[]]
    case Num(_) => [[]]
    case Unop(_, r) => Under(0, FreeTree(r)) + [[]]
  }

  /**
   * The intended free_node releases exactly the nodes of the tree, each
   * once, and every node after all the nodes below it.
   */
  lemma {:induction false} FreeTreeReleasesAll(e: PExpr)
    ensures forall p :: p in FreeTree(e) <==> IsNode(e, p)
    ensures Distinct(FreeTree(e)) && ChildrenFirst(FreeTree(e))
  {
    match e
    case Binop(l, _, r) =>
      FreeTreeReleasesAll(l);
      FreeTreeReleasesAll(r);
      var a, b := Under(0, FreeTree(l)), Under(1, FreeTree(r));
      UnderFacts(0, FreeTree(l));
      UnderFacts(1, FreeTree(r));
      forall p ensures p in FreeTree(e) <==> IsNode(e, p) {
        assert p in FreeTree(e) <==> p in a || p in b || p == [];
        UnderIn(0, FreeTree(l), p);
        UnderIn(1, FreeTree(r), p);
      }
      SeparateJoin(a, b);
      SeparateJoin(a + b, [[]]);
    case Num(_) =>
    case Unop(_, r) =>
      FreeTreeReleasesAll(r);
      var a := Under(0, FreeTree(r));
      UnderFacts(0, FreeTree(r));
      forall p ensures p in FreeTree(e) <==> IsNode(e, p) {
        assert p in FreeTree(e) <==> p in a || p == [];
        UnderIn(0, FreeTree(r), p);
      }
      SeparateJoin(a, [[]]);
  }

  lemma UnderIn(k: nat, freed: seq<seq<nat>>, p: seq<nat>)
    ensures p in Under(k, freed) <==> |p| > 0 && p[0] == k && p[1..] in freed
  {
    if p in Under(k, freed) {
      var j :| 0 <= j < |freed| && Under(k, freed)[j] == p;
      assert p[1..] == freed[j];
    }
    if |p| > 0 && p[0] == k && p[1..] in freed {
      var j :| 0 <= j < |freed| && freed[j] == p[1..];
      assert Under(k, freed)[j] == p;
    }
  }

  /** Putting one step in front keeps the order and the distinctness of a release order. */
  lemma UnderFacts(k: nat, freed: seq<seq<nat>>)
    requires Distinct(freed) && ChildrenFirst(freed)
    ensures Distinct(Under(k, freed)) && ChildrenFirst(Under(k, freed))
    ensures forall j :: 0 <= j < |freed| ==> |Under(k, freed)[j]| > 0 && Under(k, freed)[j][0] == k
  {
    var u := Under(k, freed);
    forall i, j | 0 <= i < j < |u| ensures u[i] != u[j] && !(u[i] < u[j]) {
      assert u[i][1..] == freed[i] && u[j][1..] == freed[j];
    }
  }

  /**
   * Two release orders whose nodes differ in their first step, or the
   * second of which is the root alone, join into one.
   */
  lemma SeparateJoin(a: seq<seq<nat>>, b: seq<seq<nat>>)
    requires Distinct(a) && ChildrenFirst(a) && Distinct(b) && ChildrenFirst(b)
    requires forall i :: 0 <= i < |a| ==> |a[i]| > 0
    requires b == [[]] || forall j :: 0 <= j < |b| ==> |b[j]| > 0 && b[j][0] == 1
    requires b == [[]] || forall i :: 0 <= i < |a| ==> a[i][0] == 0
    ensures Distinct(a + b) && ChildrenFirst(a + b)
  {
    var s := a + b;
    forall i, j | 0 <= i < j < |s| ensures s[i] != s[j] && !(s[i] < s[j]) {
      if j >= |a| && i < |a| {
        assert s[i] == a[i] && s[j] == b[j - |a|];
      }
    }
  }

  /** A concrete instance: Binop(1, "+", 2) evaluates to 3 and prints as "1 + 2". */
  lemma EvalShowExample()
    ensures Eval(Binop(Num(1), "+", Num(2))) == 3
    ensures Show(Binop(Num(1), "+", Num(2))) == "1 + 2"
  {
    assert Decimal(1) == "1" && Decimal(2) == "2";
  }

  /** A concrete instance: the stream "1 + 2 EOF" parses to Binop(1, "+", 2). */
  lemma ParseExample()
    ensures Expr([PToken(Number, "1"), PToken(Operator, "+"), PToken(Number, "2"), EOF_TOKEN], 0)
      == Ok(Parsed(Binop(Num(1), "+", Num(2)), 3))
  {
    var ts := [PToken(Number, "1"), PToken(Operator, "+"), PToken(Number, "2"), EOF_TOKEN];
    assert Decimal(1) == "1" && Decimal(2) == "2";
    StrtolDecimal(1);
    StrtolDecimal(2);
    ExprNum(ts, 2, "2", 2);
    ExprBinop(ts, 0, "1", 1, "+", Num(2), 3);
  }

  /** An operand may not be followed by another operand: "1 2" is rejected at "2". */
  lemma ParseRejects()
    ensures Expr([PToken(Number, "1"), PToken(Number, "2")], 0) == Err(Unexpected(PToken(Number, "2")))
  {
  }
}
