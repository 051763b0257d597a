/**
 * The value engine of src/value/value.c: a reference-counted, rank-tagged
 * array. The slots `sd` hold the shape in their first `rank` entries and the
 * elements in the following `ecount` entries; `acount` is the element
 * capacity. The slot sequence is as long as the C allocation (two preallocated
 * slots plus the trailing extension).
 */
module Values {
  import opened Common

  datatype ValueType = Integer | Vector | Symbol | Function | Error

  /** struct value_atom: a type tag and one machine word of data. */
  datatype Atom = Atom(vtype: ValueType, data: u64)

  /** What a value denotes, independent of its storage. */
  datatype View = View(vtype: ValueType, shape: seq<u64>, elems: seq<u64>)

  datatype EvalError = MismatchedShapes

  /** Slots of a fresh scalar: the two preallocated in the struct. */
  const SINGLE_SLOTS: nat := 2
  /** value_make_vector allocates room for init_count + 1 = 11 extra slots. */
  const VECTOR_SLOTS: nat := 2 + 11

  class Value {
    var refcount: nat
    var vtype: ValueType
    var rank: nat
    var ecount: nat
    var acount: nat
    var sd: seq<u64>
    /** False once value_free has handed the storage back. */
    ghost var live: bool

    /**
     * The layout invariant: at least one element, no more elements than
     * capacity, shape and capacity fit the allocation, and the shape agrees
     * with the element count. value.c only ever builds ranks 0 and 1.
     */
    ghost predicate Shaped()
      reads this`rank, this`ecount, this`acount, this`sd
    {
      && 1 <= ecount <= acount
      && rank + acount <= |sd|
      && rank <= 1
      && (rank == 0 ==> ecount == 1)
      && (rank == 1 ==> sd[0] == ecount)
    }

    ghost predicate Valid()
      reads this
    {
      live && refcount >= 1 && Shaped()
    }

    function Shape(): (s: seq<u64>)
      requires Shaped()
      reads this`rank, this`ecount, this`acount, this`sd
      ensures |s| == rank
    {
      sd[..rank]
    }

    function Elems(): (es: seq<u64>)
      requires Shaped()
      reads this`rank, this`ecount, this`acount, this`sd
      ensures |es| == ecount
    {
      sd[rank..rank + ecount]
    }

    function AsView(): (v: View)
      requires Shaped()
      reads this`vtype, this`rank, this`ecount, this`acount, this`sd
      ensures ViewOk(v)
    {
      View(vtype, Shape(), Elems())
    }

    /** value_make_single: a rank-0 value holding one atom. */
    constructor MakeSingle(a: Atom)
      ensures Valid() && refcount == 1
      ensures rank == 0 && ecount == 1 && acount == 1 && vtype == a.vtype
      ensures |sd| == SINGLE_SLOTS && sd[0] == a.data
      ensures AsView() == View(a.vtype, [], [a.data])
    {
      refcount := 1;
      rank := 0;
      ecount := 1;
      acount := 1;
      vtype := a.vtype;
      sd := [a.data, 0];
      live := true;
    }

    /** value_make_vector: a rank-1 value of shape [1]; `acount` stays 1. */
    constructor MakeVector(a: Atom)
      ensures Valid() && refcount == 1
      ensures rank == 1 && ecount == 1 && acount == 1 && vtype == a.vtype
      ensures |sd| == VECTOR_SLOTS && sd[0] == 1 && sd[1] == a.data
      ensures AsView() == View(a.vtype, [1], [a.data])
    {
      refcount := 1;
      rank := 1;
      ecount := 1;
      acount := 1;
      vtype := a.vtype;
      sd := [1, a.data] + seq(11, _ => 0);
      live := true;
    }

    /**
     * copy_value_container: a fresh value with the rank, shape, element
     * count and type of `v`, capacity equal to its element count, and
     * ecount + rank + 2 slots. The C storage for the elements is left
     * uninitialised; here it is zero.
     */
    constructor CopyContainer(v: Value)
      requires v.Valid()
      ensures Valid() && refcount == 1
      ensures rank == v.rank && ecount == v.ecount && acount == v.ecount
      ensures vtype == v.vtype && Shape() == v.Shape()
      ensures |sd| == SINGLE_SLOTS + v.ecount + v.rank
      ensures Elems() == seq(v.ecount, _ => 0)
    {
      refcount := 1;
      rank := v.rank;
      ecount := v.ecount;
      acount := v.ecount;
      vtype := v.vtype;
      sd := v.sd[..v.rank] + seq(v.ecount + 2, _ => 0);
      live := true;
    }

    /**
     * value_append: grows the capacity by doubling when it is full
     * (reallocating to 2 + acount + rank slots), then bumps the trailing
     * shape slot and stores the atom after the old elements.
     */
    method Append(a: Atom)
      requires Valid() && rank >= 1 && a.vtype == vtype
      requires ecount + 1 < TWO_64
      modifies this`acount, this`sd, this`ecount
      ensures Valid()
      ensures acount == if old(ecount) == old(acount) then 2 * old(acount) else old(acount)
      ensures ecount == old(ecount) + 1
      ensures sd[rank - 1] == old(sd[rank - 1]) + 1
      ensures sd[rank + old(ecount)] == a.data
      ensures Shape() == old(Shape()[..rank - 1]) + [old(sd[rank - 1]) + 1]
      ensures Elems() == old(Elems()) + [a.data]
    {
      if ecount == acount {
        acount := acount * 2;
        var slots := SINGLE_SLOTS + acount + rank;
        // realloc keeps the common prefix of the old and new storage
        sd := if slots <= |sd| then sd[..slots] else sd + seq(slots - |sd|, _ => 0);
      }
      sd := sd[rank - 1 := sd[rank - 1] + 1];
      sd := sd[rank + ecount := a.data];
      ecount := ecount + 1;
    }

    /** value_reference: one more owner of the same value. */
    method Reference() returns (r: Value)
      requires Valid()
      modifies this`refcount
      ensures r == this && Valid()
      ensures refcount == old(refcount) + 1
    {
      refcount := refcount + 1;
      r := this;
    }

    /** value_free: one owner fewer; the storage goes back at zero. */
    method Free()
      requires Valid()
      modifies this`refcount, this`live
      ensures refcount == old(refcount) - 1
      ensures live <==> refcount > 0
      ensures live ==> Valid()
    {
      refcount := refcount - 1;
      if refcount == 0 {
        live := false;
      }
    }

    /**
     * value_stringify: every element printed with "%ld " into a buffer of
     * 21 * (ecount + 2) * (rank + 1) characters, then the trailing space is
     * overwritten by the terminating NUL.
     */
    method Stringify() returns (s: string)
      requires Valid()
      ensures s == Render(Elems())
      ensures |s| < StringifyBufferSize(ecount, rank)
    {
      var len := StringifyBufferSize(ecount, rank);
      BufferCovers(ecount, rank);
      var tmp := new char[len];
      var pos := PrintElems(tmp, Elems());
      pos := pos - 1;
      tmp[pos] := '\0';
      s := tmp[..pos];
    }
  }

  /** The "%ld " loop of value_stringify over the elements `es`. */
  method PrintElems(tmp: array<char>, es: seq<u64>) returns (pos: nat)
    requires 1 <= |es| && 21 * |es| < tmp.Length
    modifies tmp
    ensures 1 <= pos <= 21 * |es|
    ensures tmp[..pos - 1] == Render(es) && tmp[pos - 1] == ' '
  {
    pos := 0;
    for i := 0 to |es|
      invariant pos <= 21 * i
      invariant tmp[..pos] == Spaced(ElemTexts(es[..i]))
    {
      var t := ElemText(es[i]);
      ghost var done := tmp[..pos];
      Snprintf(tmp, pos, t);
      SpacedStep(es, i);
      assert tmp[..pos + |t|] == done + t;
      pos := pos + |t|;
    }
    assert es[..|es|] == es;
    SpacedJoin(ElemTexts(es));
    assert tmp[..pos] == Render(es) + " ";
    assert tmp[..pos - 1] == tmp[..pos][..pos - 1];
  }

  /** One element as "%ld " writes it: at most 21 characters. */
  function ElemText(x: u64): (t: string)
    ensures t == LongText(Signed(x)) + " "
    ensures |t| <= 21
  {
    LongTextFits(Signed(x));
    LongText(Signed(x)) + " "
  }

  /** A view is one value.c can build: the shape agrees with the elements. */
  predicate ViewOk(v: View)
  {
    && |v.elems| >= 1
    && |v.shape| <= 1
    && (|v.shape| == 0 ==> |v.elems| == 1)
    && (|v.shape| == 1 ==> v.shape[0] == |v.elems|)
  }

  /** snprintf(buf + pos, len - pos, "%s", t) when `t` fits. */
  method Snprintf(buf: array<char>, pos: nat, t: string)
    requires pos + |t| < buf.Length
    modifies buf
    ensures buf[..pos + |t|] == old(buf[..pos]) + t
    ensures buf[pos + |t|] == '\0'
  {
    for k := 0 to |t|
      invariant buf[..pos + k] == old(buf[..pos]) + t[..k]
    {
      buf[pos + k] := t[k];
      assert buf[..pos + k + 1] == buf[..pos + k] + [t[k]];
    }
    buf[pos + |t|] := '\0';
    assert t[..|t|] == t;
  }

  function StringifyBufferSize(ecount: nat, rank: nat): nat
  {
    21 * (ecount + 2) * (rank + 1)
  }

  lemma BufferCovers(ecount: nat, rank: nat)
    ensures 21 * ecount + 1 <= StringifyBufferSize(ecount, rank)
  {
    var m := 21 * (ecount + 2);
    assert m * (rank + 1) == m * rank + m;
    assert m * rank >= 0;
  }

  /** The "%ld" text of every element, reading each word as a signed long. */
  function ElemTexts(es: seq<u64>): (ts: seq<string>)
    ensures |ts| == |es|
    ensures forall i :: 0 <= i < |es| ==> ts[i] == LongText(Signed(es[i]))
  {
    seq(|es|, i requires 0 <= i < |es| => LongText(Signed(es[i])))
  }

  /** Each text followed by one space, as the "%ld " loop writes them. */
  function Spaced(ts: seq<string>): string
  {
    if ts == [] then "" else Spaced(ts[..|ts| - 1]) + ts[|ts| - 1] + " "
  }

  lemma SpacedStep(es: seq<u64>, i: nat)
    requires i < |es|
    ensures Spaced(ElemTexts(es[..i + 1])) == Spaced(ElemTexts(es[..i])) + ElemText(es[i])
  {
    var ts := ElemTexts(es[..i + 1]);
    assert ts[..i] == ElemTexts(es[..i]);
  }

  /** The rendering of a value's elements: single spaces, none trailing. */
  function Render(es: seq<u64>): string
    requires |es| >= 1
  {
    JoinSpaces(ElemTexts(es))
  }

  /** Dropping the last space of the spaced texts gives the joined texts. */
  lemma {:induction false} SpacedJoin(ts: seq<string>)
    requires |ts| >= 1
    ensures Spaced(ts) == JoinSpaces(ts) + " "
    decreases |ts|
  {
    if |ts| > 1 {
      var init := ts[..|ts| - 1];
      SpacedJoin(init);
      JoinSpacesSnoc(init, ts[|ts| - 1]);
      assert init + [ts[|ts| - 1]] == ts;
    }
  }

  /** Reading the rendering back with strtol recovers every element as a long. */
  lemma RenderRoundTrip(es: seq<u64>)
    requires |es| >= 1
    ensures |SplitSpaces(Render(es))| == |es|
    ensures forall i :: 0 <= i < |es| ==> Strtol(SplitSpaces(Render(es))[i]) == Signed(es[i])
  {
    var ts := ElemTexts(es);
    SplitJoin(ts);
    forall i | 0 <= i < |es|
      ensures Strtol(ts[i]) == Signed(es[i])
    {
      StrtolLongText(Signed(es[i]));
    }
  }

  // ---------------------------------------------------------------------
  // Broadcasting binary operations

  /** prefixes_agree: the first |w| shape slots of `a` are those of `w`. */
  predicate PrefixAgree(ashape: seq<u64>, wshape: seq<u64>)
  {
    |wshape| <= |ashape| && ashape[..|wshape|] == wshape
  }

  /** prefixes_agree(a, w), which relies on rank a >= rank w. */
  method PrefixesAgree(a: Value, w: Value) returns (r: bool)
    requires a.Shaped() && w.Shaped() && w.rank <= a.rank
    ensures r <==> PrefixAgree(a.Shape(), w.Shape())
  {
    for i := 0 to w.rank
      invariant a.sd[..i] == w.sd[..i]
    {
      if a.sd[i] != w.sd[i] {
        assert a.Shape()[i] != w.Shape()[i];
        return false;
      }
      assert a.sd[..i + 1] == a.sd[..i] + [a.sd[i]];
      assert w.sd[..i + 1] == w.sd[..i] + [w.sd[i]];
    }
    return true;
  }

  /** apply_binop: res[i] := op(a[i], w[i]) for i < cnt, at the given offsets. */
  method ApplyBinop(res: Value, ro: nat, a: seq<u64>, ao: nat, w: seq<u64>, wo: nat,
                    op: (u64, u64) -> u64, cnt: nat)
    requires ro + cnt <= |res.sd| && ao + cnt <= |a| && wo + cnt <= |w|
    modifies res`sd
    ensures Applied(old(res.sd), res.sd, ro, a, ao, w, wo, op, cnt)
  {
    for i := 0 to cnt
      invariant Applied(old(res.sd), res.sd, ro, a, ao, w, wo, op, i)
    {
      res.sd := res.sd[ro + i := op(a[ao + i], w[wo + i])];
    }
  }

  /** `sd1` is `sd0` with the `cnt` elements from `ro` on replaced by op of a's (from `ao`) and w's (from `wo`). */
  ghost predicate Applied(sd0: seq<u64>, sd1: seq<u64>, ro: nat, a: seq<u64>, ao: nat, w: seq<u64>, wo: nat,
                          op: (u64, u64) -> u64, cnt: nat)
    requires ro + cnt <= |sd0| && ao + cnt <= |a| && wo + cnt <= |w|
  {
    && |sd1| == |sd0|
    && forall k :: 0 <= k < |sd1| ==>
      sd1[k] == if ro <= k < ro + cnt then op(a[ao + k - ro], w[wo + k - ro]) else sd0[k]
  }

  /** The elements of `a` combined with `w` repeated along them. */
  function Broadcast(ae: seq<u64>, we: seq<u64>, op: (u64, u64) -> u64): (r: seq<u64>)
    requires |we| >= 1
    ensures |r| == |ae|
  {
    seq(|ae|, j requires 0 <= j < |ae| => op(ae[j], we[j % |we|]))
  }

  /**
   * What binop's loop writes: the first `reps * |we|` elements follow the
   * broadcast rule, the rest keep the container's (here zero) contents.
   */
  function PartialBroadcast(ae: seq<u64>, we: seq<u64>, op: (u64, u64) -> u64, reps: nat): (r: seq<u64>)
    requires |we| >= 1
    ensures |r| == |ae|
  {
    seq(|ae|, j requires 0 <= j < |ae| => if j < reps * |we| then op(ae[j], we[j % |we|]) else 0)
  }

  /** The repetition count binop computes from the ranks. */
  function RankReps(arank: nat, wrank: nat): nat
    requires wrank <= arank
  {
    if arank == wrank then 1 else arank - wrank
  }

  lemma MulSmall(d: int, c: int)
    requires c > 0 && -c < d * c < c
    ensures d == 0
  {
  }

  /** The offset inside a block of `wc` elements is the remainder by `wc`. */
  lemma ModInBlock(e: nat, wc: nat, i: nat)
    requires i < wc
    ensures (e * wc + i) % wc == i
  {
    var x := e * wc + i;
    var q := x / wc;
    var r := x % wc;
    assert x == q * wc + r;
    assert (e - q) * wc == r - i;
    MulSmall(e - q, wc);
  }

  /** `n` blocks of `c` elements, counted block by block as binop's loop advances its offset. */
  function Blocks(n: nat, c: nat): nat
  {
    if n == 0 then 0 else Blocks(n - 1, c) + c
  }

  lemma {:induction false} BlocksIsProduct(n: nat, c: nat)
    ensures Blocks(n, c) == n * c
  {
    if n > 0 {
      BlocksIsProduct(n - 1, c);
      assert (n - 1) * c + c == n * c;
    }
  }

  /** Before the last block there is room for one more. */
  lemma {:induction false} BlocksFit(e: nat, reps: nat, c: nat)
    requires e < reps
    ensures Blocks(e, c) + c <= Blocks(reps, c)
    decreases reps
  {
    if e + 1 < reps {
      BlocksFit(e, reps - 1, c);
    }
  }

  /** `fill` with its first `n` elements replaced by the broadcast rule. */
  function Combine(ae: seq<u64>, we: seq<u64>, op: (u64, u64) -> u64, n: nat, fill: seq<u64>): (r: seq<u64>)
    requires |we| >= 1 && |fill| == |ae|
    ensures |r| == |ae|
  {
    seq(|ae|, j requires 0 <= j < |ae| => if j < n then op(ae[j], we[j % |we|]) else fill[j])
  }

  /**
   * The state of binop's loop after `n` elements: the elements of the
   * result (stored from `rk` on) follow the broadcast rule below `n` and
   * keep their initial contents `re0` from `n` on.
   */
  ghost predicate BlocksDone(sd: seq<u64>, rk: nat, ae: seq<u64>, we: seq<u64>, op: (u64, u64) -> u64,
                             re0: seq<u64>, n: nat)
    requires |we| >= 1
  {
    && rk + |ae| <= |sd| && |re0| == |ae|
    && forall j :: 0 <= j < |ae| ==> sd[rk + j] == if j < n then op(ae[j], we[j % |we|]) else re0[j]
  }

  /** One pass of the outer loop: apply_binop on block `e` extends BlocksDone by one block. */
  lemma BlockStep(sd0: seq<u64>, sd1: seq<u64>, rk: nat, asd: seq<u64>, ar: nat, wsd: seq<u64>, wr: nat,
                  ae: seq<u64>, we: seq<u64>, op: (u64, u64) -> u64, re0: seq<u64>, e: nat, off: nat)
    requires |we| >= 1 && ar + |ae| <= |asd| && wr + |we| <= |wsd|
    requires ae == asd[ar..ar + |ae|] && we == wsd[wr..wr + |we|]
    requires off == Blocks(e, |we|) && off + |we| <= |ae|
    requires BlocksDone(sd0, rk, ae, we, op, re0, off)
    requires rk + off + |we| <= |sd0|
    requires Applied(sd0, sd1, rk + off, asd, ar + off, wsd, wr, op, |we|)
    ensures BlocksDone(sd1, rk, ae, we, op, re0, off + |we|)
  {
    BlocksIsProduct(e, |we|);
    forall j | 0 <= j < |ae|
      ensures sd1[rk + j] == if j < off + |we| then op(ae[j], we[j % |we|]) else re0[j]
    {
      if off <= j < off + |we| {
        ModInBlock(e, |we|, j - off);
        assert sd1[rk + j] == op(asd[ar + j], wsd[wr + j - off]);
      }
    }
  }

  /**
   * The nested loop of binop over the storage of the result: `reps`
   * blocks of `wc` elements, block `e` combining the e-th run of a's
   * elements (from `ar` in `asd`) with all of w's (from `wr` in `wsd`).
   */
  method BinopBlocks(res: Value, rk: nat, asd: seq<u64>, ar: nat, wsd: seq<u64>, wr: nat,
                     op: (u64, u64) -> u64, wc: nat, reps: nat, ghost ae: seq<u64>, ghost we: seq<u64>)
    requires wc == |we| >= 1 && ar + |ae| <= |asd| && wr + wc <= |wsd|
    requires ae == asd[ar..ar + |ae|] && we == wsd[wr..wr + wc]
    requires Blocks(reps, wc) <= |ae| && rk + |ae| <= |res.sd|
    modifies res`sd
    ensures |res.sd| == old(|res.sd|)
    ensures forall k :: 0 <= k < rk ==> res.sd[k] == old(res.sd[k])
    ensures BlocksDone(res.sd, rk, ae, we, op, old(res.sd[rk..rk + |ae|]), Blocks(reps, wc))
  {
    ghost var re0 := res.sd[rk..rk + |ae|];
    var off := 0;
    for extrank := 0 to reps
      invariant |res.sd| == old(|res.sd|)
      invariant forall k :: 0 <= k < rk ==> res.sd[k] == old(res.sd[k])
      invariant off == Blocks(extrank, wc)
      invariant BlocksDone(res.sd, rk, ae, we, op, re0, off)
    {
      BlocksFit(extrank, reps, wc);
      ghost var sd0 := res.sd;
      ApplyBinop(res, rk + off, asd, ar + off, wsd, wr, op, wc);
      BlockStep(sd0, res.sd, rk, asd, ar, wsd, wr, ae, we, op, re0, extrank, off);
      off := off + wc;
    }
  }

  /** binop's loop on the result container: its shape is kept and its elements become Combine's. */
  method BinopLoop(res: Value, a: Value, w: Value, op: (u64, u64) -> u64, reps: nat)
    requires res != a && res != w
    requires res.Shaped() && a.Shaped() && w.Shaped()
    requires res.rank == a.rank && res.ecount == a.ecount
    requires reps * w.ecount <= a.ecount
    modifies res`sd
    ensures res.Shaped() && |res.sd| == old(|res.sd|)
    ensures res.Shape() == old(res.Shape())
    ensures res.Elems() == Combine(a.Elems(), w.Elems(), op, reps * w.ecount, old(res.Elems()))
  {
    ghost var ae, we, re0 := a.Elems(), w.Elems(), res.Elems();
    BlocksIsProduct(reps, w.ecount);
    BinopBlocks(res, res.rank, a.sd, a.rank, w.sd, w.rank, op, w.ecount, reps, ae, we);
    assert res.sd[..res.rank] == old(res.sd[..res.rank]);
    assert res.Elems() == Combine(ae, we, op, reps * w.ecount, re0) by {
      forall j | 0 <= j < |ae|
        ensures res.Elems()[j] == Combine(ae, we, op, reps * w.ecount, re0)[j]
      {
        assert res.Elems()[j] == res.sd[res.rank + j];
      }
    }
  }

  /**
   * binop as written: the result container is a copy of `a`; shapes that
   * do not agree are an error (the C prints "Error: mismatched shapes." and
   * exits); otherwise `w` is applied RankReps(a.rank, w.rank) times.
   */
  method BinopAsWritten(a: Value, w: Value, op: (u64, u64) -> u64) returns (r: Result<Value, EvalError>)
    requires a.Valid() && w.Valid() && w.rank <= a.rank
    ensures r.Err? <==> !PrefixAgree(a.Shape(), w.Shape())
    ensures r.Ok? ==> fresh(r.value) && r.value.Valid() && r.value.refcount == 1
    ensures r.Ok? ==> r.value.rank == a.rank && r.value.ecount == a.ecount && r.value.acount == a.ecount
    ensures r.Ok? ==>
      r.value.AsView() == View(a.vtype, a.Shape(), PartialBroadcast(a.Elems(), w.Elems(), op, RankReps(a.rank, w.rank)))
  {
    var res := new Value.CopyContainer(a);
    var agree := PrefixesAgree(a, w);
    if !agree {
      return Err(MismatchedShapes);
    }
    var reps := if a.rank == w.rank then 1 else a.rank - w.rank;
    AgreeCounts(a, w);
    BinopLoop(res, a, w, op, reps);
    return Ok(res);
  }

  /** With agreeing prefixes of rank <= 1, w's elements tile a's exactly once or a's count times. */
  lemma AgreeCounts(a: Value, w: Value)
    requires a.Shaped() && w.Shaped() && w.rank <= a.rank && PrefixAgree(a.Shape(), w.Shape())
    ensures RankReps(a.rank, w.rank) == 1
    ensures w.ecount == a.ecount || w.ecount == 1
    ensures (a.ecount / w.ecount) * w.ecount == a.ecount
  {
    if w.rank == 1 {
      assert a.Shape()[0] == w.Shape()[0];
    }
  }

  /**
   * binop with the repetition count taken from the element counts, so the
   * lower-rank operand is repeated across all of the higher-rank one.
   */
  method Binop(a: Value, w: Value, op: (u64, u64) -> u64) returns (r: Result<Value, EvalError>)
    requires a.Valid() && w.Valid() && w.rank <= a.rank
    ensures r.Err? <==> !PrefixAgree(a.Shape(), w.Shape())
    ensures r.Ok? ==> fresh(r.value) && r.value.Valid() && r.value.refcount == 1
    ensures r.Ok? ==> r.value.rank == a.rank && r.value.ecount == a.ecount && r.value.acount == a.ecount
    ensures r.Ok? ==> r.value.AsView() == View(a.vtype, a.Shape(), Broadcast(a.Elems(), w.Elems(), op))
  {
    var res := new Value.CopyContainer(a);
    var agree := PrefixesAgree(a, w);
    if !agree {
      return Err(MismatchedShapes);
    }
    AgreeCounts(a, w);
    var reps := a.ecount / w.ecount;
    BinopLoop(res, a, w, op, reps);
    assert res.Elems() == Broadcast(a.Elems(), w.Elems(), op);
    return Ok(res);
  }

  /** tmp_add: unsigned long addition, which wraps modulo 2^64. */
  function TmpAdd(x: u64, y: u64): (r: u64)
    ensures r == (x + y) % TWO_64
  {
    AddU64(x, y)
  }

  /**
   * The sum value_add denotes: the higher-rank operand goes left, shapes
   * must agree in prefix, and the lower-rank operand repeats along the other.
   */
  function AddViews(a: View, w: View): (r: Result<View, EvalError>)
    requires ViewOk(a) && ViewOk(w)
    ensures r.Ok? ==> ViewOk(r.value)
    ensures r.Ok? ==> r.value == (if |a.shape| < |w.shape| then View(w.vtype, w.shape, r.value.elems)
                                  else View(a.vtype, a.shape, r.value.elems))
  {
    if |a.shape| < |w.shape| then AddOrdered(w, a) else AddOrdered(a, w)
  }

  function AddOrdered(a: View, w: View): (r: Result<View, EvalError>)
    requires ViewOk(a) && ViewOk(w)
    ensures r.Ok? <==> PrefixAgree(a.shape, w.shape)
    ensures r.Ok? ==> ViewOk(r.value) && r.value.shape == a.shape && r.value.vtype == a.vtype
  {
    if PrefixAgree(a.shape, w.shape) then Ok(View(a.vtype, a.shape, Broadcast(a.elems, w.elems, TmpAdd)))
    else Err(MismatchedShapes)
  }

  /** value_add: swap so the left operand has the higher rank, then binop. */
  method Add(a: Value, w: Value) returns (r: Result<Value, EvalError>)
    requires a.Valid() && w.Valid()
    ensures r.Ok? ==> fresh(r.value) && r.value.Valid() && r.value.refcount == 1
    ensures r.Err? <==> AddViews(a.AsView(), w.AsView()).Err?
    ensures r.Ok? ==> AddViews(a.AsView(), w.AsView()) == Ok(r.value.AsView())
  {
    if a.rank < w.rank {
      r := Binop(w, a, TmpAdd);
    } else {
      r := Binop(a, w, TmpAdd);
    }
  }

  /** value_add as written in value.c, with binop's rank-derived repetition count. */
  method AddAsWritten(a: Value, w: Value) returns (r: Result<Value, EvalError>)
    requires a.Valid() && w.Valid()
    ensures r.Ok? ==> fresh(r.value) && r.value.Valid() && r.value.refcount == 1
    ensures r.Err? <==> AddViews(a.AsView(), w.AsView()).Err?
    ensures r.Ok? && a.rank >= w.rank ==>
      r.value.AsView() == View(a.vtype, a.Shape(), PartialBroadcast(a.Elems(), w.Elems(), TmpAdd, RankReps(a.rank, w.rank)))
    ensures r.Ok? && a.rank < w.rank ==>
      r.value.AsView() == View(w.vtype, w.Shape(), PartialBroadcast(w.Elems(), a.Elems(), TmpAdd, RankReps(w.rank, a.rank)))
  {
    if a.rank < w.rank {
      r := BinopAsWritten(w, a, TmpAdd);
    } else {
      r := BinopAsWritten(a, w, TmpAdd);
    }
  }

  // ---------------------------------------------------------------------
  // Properties of addition

  /** The swap in value_add is sound: addition of views commutes. */
  lemma AddCommutes(a: View, w: View)
    requires ViewOk(a) && ViewOk(w) && a.vtype == w.vtype
    ensures AddViews(a, w) == AddViews(w, a)
  {
    if |a.shape| == |w.shape| && PrefixAgree(a.shape, w.shape) {
      assert |a.elems| == |w.elems| by {
        if |a.shape| == 1 { assert a.shape[..1][0] == w.shape[0]; }
      }
      assert PrefixAgree(w.shape, a.shape) by {
        assert a.shape[..|a.shape|] == a.shape;
        assert w.shape[..|w.shape|] == w.shape;
      }
      var n := |a.elems|;
      forall j | 0 <= j < n
        ensures Broadcast(a.elems, w.elems, TmpAdd)[j] == Broadcast(w.elems, a.elems, TmpAdd)[j]
      {
        ModInBlock(0, n, j);
        assert TmpAdd(a.elems[j], w.elems[j]) == TmpAdd(w.elems[j], a.elems[j]);
      }
      assert Broadcast(a.elems, w.elems, TmpAdd) == Broadcast(w.elems, a.elems, TmpAdd);
      assert a.shape == w.shape by {
        assert a.shape[..|a.shape|] == a.shape;
      }
    } else if |a.shape| == |w.shape| {
      assert !PrefixAgree(w.shape, a.shape) by {
        assert a.shape[..|a.shape|] == a.shape;
        assert w.shape[..|w.shape|] == w.shape;
      }
    }
  }

  /** A scalar agrees with any shape and is added to every element. */
  lemma AddScalar(a: View, w: View)
    requires ViewOk(a) && ViewOk(w) && |w.shape| == 0
    ensures AddViews(a, w).Ok?
    ensures AddViews(a, w).value.shape == a.shape
    ensures forall j :: 0 <= j < |a.elems| ==>
      AddViews(a, w).value.elems[j] == TmpAdd(a.elems[j], w.elems[0])
  {
    forall j | 0 <= j < |a.elems|
      ensures j % 1 == 0
    {
    }
  }

  /** Two vectors add elementwise exactly when their lengths agree. */
  lemma AddVectors(a: View, w: View)
    requires ViewOk(a) && ViewOk(w) && |a.shape| == 1 && |w.shape| == 1
    ensures AddViews(a, w).Ok? <==> |a.elems| == |w.elems|
    ensures AddViews(a, w).Ok? ==> forall j :: 0 <= j < |a.elems| ==>
      AddViews(a, w).value.elems[j] == TmpAdd(a.elems[j], w.elems[j])
  {
    if |a.elems| == |w.elems| {
      assert a.shape == w.shape;
      forall j | 0 <= j < |a.elems|
        ensures j % |w.elems| == j
      {
        ModInBlock(0, |w.elems|, j);
      }
    } else {
      assert a.shape[..1][0] != w.shape[0];
    }
  }

  /** Adding the scalar 10 to the vector 1 2 3 gives 11 12 13. */
  lemma AddExampleBroadcast()
    ensures AddViews(View(Integer, [], [10]), View(Integer, [3], [1, 2, 3]))
      == Ok(View(Integer, [3], [11, 12, 13]))
  {
    var r := Broadcast([1, 2, 3], [10], TmpAdd);
    assert r[0] == 11 && r[1] == 12 && r[2] == 13;
    assert r == [11, 12, 13];
  }

  /** Adding vectors of shapes [3] and [2] is a shape error. */
  lemma AddExampleMismatch()
    ensures AddViews(View(Integer, [3], [1, 2, 3]), View(Integer, [2], [1, 2])).Err?
  {
    var s3: seq<u64> := [3];
    assert s3[..1][0] == 3;
  }

  /**
   * With the rank-derived count binop writes only the first element when a
   * scalar is added to the vector 1 2 3; the other two stay as the
   * container left them.
   */
  lemma BinopAsWrittenCounterexample()
    ensures RankReps(1, 0) == 1
    ensures PartialBroadcast([1, 2, 3], [10], TmpAdd, RankReps(1, 0)) == [11, 0, 0]
    ensures PartialBroadcast([1, 2, 3], [10], TmpAdd, RankReps(1, 0)) != Broadcast([1, 2, 3], [10], TmpAdd)
  {
    var p := PartialBroadcast([1, 2, 3], [10], TmpAdd, 1);
    assert p[0] == 11 && p[1] == 0 && p[2] == 0;
    assert p == [11, 0, 0];
    assert Broadcast([1, 2, 3], [10], TmpAdd)[1] == 12;
  }

  /** When ranks are equal the two repetition counts coincide. */
  lemma PartialBroadcastEqualRanks(a: View, w: View, op: (u64, u64) -> u64)
    requires ViewOk(a) && ViewOk(w) && |a.shape| == |w.shape| && PrefixAgree(a.shape, w.shape)
    ensures PartialBroadcast(a.elems, w.elems, op, 1) == Broadcast(a.elems, w.elems, op)
  {
    if |a.shape| == 1 {
      assert a.shape[..1][0] == w.shape[0];
    }
    assert |a.elems| <= 1 * |w.elems|;
    var p := PartialBroadcast(a.elems, w.elems, op, 1);
    var b := Broadcast(a.elems, w.elems, op);
    assert forall j :: 0 <= j < |a.elems| ==> p[j] == b[j];
  }
}
