/**
 * The tree-walking evaluator of eval.c (eval_expr, eval_expr_lval,
 * eval_expect_float, eval_stmt) as functions from the tables before an
 * evaluation to the tables after it and the result. Errors stop the
 * evaluation where they arise and keep every change made before them.
 */
module Semantics {
  import opened Seqs
  import opened Ast
  import opened Values

  /**
   * What eval_expr_lval's RefId* points at: the ref field of a global
   * binding, or the value field of a cell of a dict.
   */
  datatype Slot = Global(index: nat) | DictValue(dict: RefId, cell: nat)

  predicate SlotIn(st: State, slot: Slot)
  {
    match slot
    case Global(i) => i < |st.vars|
    case DictValue(d, j) => IdIn(st, d) && st.refs[d].RDict? && j < |st.refs[d].cells|
  }

  /** *lval: the id a slot holds. */
  function Read(st: State, slot: Slot): RefId
    requires SlotIn(st, slot)
  {
    match slot
    case Global(i) => st.vars[i].ref
    case DictValue(d, j) => st.refs[d].cells[j].value
  }

  /**
   * *lval = v. The slot then holds v, every other binding and slot is as
   * before, keys and names stay where they are, and the tables stay well
   * formed.
   */
  function Store(st: State, slot: Slot, v: RefId): (st': State)
    requires SlotIn(st, slot)
    ensures SlotIn(st', slot) && Read(st', slot) == v
    ensures |st'.refs| == |st.refs| && |st'.vars| == |st.vars|
    ensures forall i :: 0 <= i < |st.vars| ==> st'.vars[i].name == st.vars[i].name
    ensures forall i :: 0 <= i < |st.vars| && slot != Global(i) ==> st'.vars[i] == st.vars[i]
    ensures forall i :: 0 <= i < |st.refs| && !(slot.DictValue? && slot.dict == i) ==> st'.refs[i] == st.refs[i]
    ensures slot.DictValue? ==>
      var cells, cells' := st.refs[slot.dict].cells, st'.refs[slot.dict].cells;
      && |cells'| == |cells|
      && forall j :: 0 <= j < |cells| ==> cells'[j].key == cells[j].key && (j != slot.cell ==> cells'[j] == cells[j])
    ensures Wf(st) && IdIn(st, v) ==> Wf(st') && Extends(st, st')
  {
    match slot
    case Global(i) => st.(vars := st.vars[i := st.vars[i].(ref := v)])
    case DictValue(d, j) =>
      var cells := st.refs[d].cells;
      st.(refs := st.refs[d := RDict(cells[j := cells[j].(value := v)])])
  }

  /** The float arithmetic of eval.c:105-125, with a zero divisor giving 0.0. */
  function Apply(op: ArithOp, a: real, b: real): real
  {
    match op
    case Add => a + b
    case Sub => a - b
    case Mul => a * b
    case Div => if b == 0.0 then 0.0 else a / b
  }

  predicate IdsIn(st: State, ids: seq<RefId>)
  {
    forall i :: 0 <= i < |ids| ==> IdIn(st, ids[i])
  }

  /** An error result carried up with the state it left behind. */
  function Fail<T, U>(o: Outcome<T>): Outcome<U>
    requires o.res.Err?
  {
    Outcome(o.st, Err(o.res.error))
  }

  /** The outcome o with the values p put in front of its result. */
  function Prefixed<T>(p: seq<T>, o: Outcome<seq<T>>): Outcome<seq<T>>
  {
    if o.res.Ok? then Outcome(o.st, Ok(p + o.res.value)) else o
  }

  /** make_reference_float, _string, _list and _dict over ids already in the table. */
  function MakeRef(st: State, v: Reference): (out: Outcome<RefId>)
    requires Wf(st) && RefWf(|st.refs|, v)
    ensures out == Alloc(st, v)
    ensures Wf(out.st) && Extends(st, out.st)
  {
    AllocWf(st, v);
    Alloc(st, v)
  }

  /** eval_expr (eval.c:33-129). */
  function Eval(st: State, e: Expr): (out: Outcome<RefId>)
    requires Wf(st)
    ensures Wf(out.st) && Extends(st, out.st) && (out.res.Ok? ==> IdIn(out.st, out.res.value))
    decreases Size(e), 2
  {
    match e
    case Subscript(b, i) => EvalSubscript(st, b, i)
    case Negate(x) =>
      var o := ExpectFloat(st, x);
      if o.res.Err? then Fail(o) else MakeRef(o.st, RFloat(-o.res.value))
    case Ident(n) =>
      var o := GetVar(st, n, false);
      if o.res.Err? then Fail(o) else Outcome(o.st, Ok(o.st.vars[o.res.value].ref))
    case StringLit(s) => MakeRef(st, RString(s))
    case FloatLit(f) => MakeRef(st, RFloat(f))
    case ListLit(chain) =>
      var o := EvalElems(st, chain);
      if o.res.Err? then Fail(o) else MakeRef(o.st, RList(Reverse(o.res.value)))
    case DictLit(items) =>
      var o := EvalItems(st, items);
      if o.res.Err? then Fail(o) else MakeRef(o.st, RDict(Reverse(o.res.value)))
    case Assign(t, r) =>
      var o := EvalAssign(st, t, r);
      if o.res.Err? then Fail(o) else Outcome(o.st, Ok(Read(o.st, o.res.value)))
    case Arith(op, l, r) =>
      var a := ExpectFloat(st, l);
      if a.res.Err? then Fail(a)
      else
        var o := ArithWith(a.st, op, a.res.value, r);
        ExtendsTrans(st, a.st, o.st);
        o
  }

  /** The rest of an arithmetic expression once its left operand gave x: the right operand, then the result. */
  function ArithWith(st: State, op: ArithOp, x: real, r: Expr): (out: Outcome<RefId>)
    requires Wf(st)
    ensures Wf(out.st) && Extends(st, out.st) && (out.res.Ok? ==> IdIn(out.st, out.res.value))
    decreases Size(r) + 1, 1
  {
    var b := ExpectFloat(st, r);
    if b.res.Err? then Fail(b) else MakeRef(b.st, RFloat(Apply(op, x, b.res.value)))
  }

  /**
   * The elements of a list literal evaluated in chain order (the loop of
   * eval.c:83-86, advancing along the chain), giving their ids in that order.
   */
  function EvalElems(st: State, chain: seq<Expr>): (out: Outcome<seq<RefId>>)
    requires Wf(st)
    ensures Wf(out.st) && Extends(st, out.st)
    ensures out.res.Ok? ==> |out.res.value| == |chain| && IdsIn(out.st, out.res.value)
    decreases ChainSize(chain), 1
  {
    if chain == [] then Outcome(st, Ok([]))
    else
      var o := Eval(st, chain[0]);
      if o.res.Err? then Fail(o)
      else
        var rest := EvalElems(o.st, chain[1..]);
        ExtendsTrans(st, o.st, rest.st);
        if rest.res.Err? then Fail(rest) else Outcome(rest.st, Ok([o.res.value] + rest.res.value))
  }

  /**
   * The entries of a dict literal evaluated in chain order, key before value
   * (the loop of eval.c:92-96, advancing along the chain). Keys are not cloned.
   */
  function EvalItems(st: State, items: seq<DictItem>): (out: Outcome<seq<DictCell>>)
    requires Wf(st)
    ensures Wf(out.st) && Extends(st, out.st)
    ensures out.res.Ok? ==> |out.res.value| == |items| && CellsIn(out.st, out.res.value)
    decreases ItemsSize(items), 1
  {
    if items == [] then Outcome(st, Ok([]))
    else
      var c := EvalEntry(st, items[0]);
      if c.res.Err? then Fail(c)
      else
        var rest := EvalItems(c.st, items[1..]);
        ExtendsTrans(st, c.st, rest.st);
        if rest.res.Err? then Fail(rest)
        else Outcome(rest.st, Ok([c.res.value] + rest.res.value))
  }

  /** One entry of a dict literal: its key, then its value, as one cell. */
  function EvalEntry(st: State, item: DictItem): (out: Outcome<DictCell>)
    requires Wf(st)
    ensures Wf(out.st) && Extends(st, out.st)
    ensures out.res.Ok? ==> CellsIn(out.st, [out.res.value])
    decreases ItemSize(item), 3
  {
    var k := Eval(st, item.key);
    if k.res.Err? then Fail(k)
    else
      var v := Eval(k.st, item.value);
      ExtendsTrans(st, k.st, v.st);
      if v.res.Err? then Fail(v)
      else Outcome(v.st, Ok(DictCell(k.res.value, v.res.value)))
  }

  /** The outcome o with its values read back to front. */
  function Reversed<T>(o: Outcome<seq<T>>): Outcome<seq<T>>
  {
    if o.res.Ok? then Outcome(o.st, Ok(Reverse(o.res.value))) else o
  }

  /** The head element evaluated moves from the rest of the chain to the values already built. */
  lemma PrefixedElems(p: seq<RefId>, st: State, chain: seq<Expr>)
    requires Wf(st) && chain != [] && Eval(st, chain[0]).res.Ok?
    ensures Prefixed(p, EvalElems(st, chain))
         == Prefixed(p + [Eval(st, chain[0]).res.value], EvalElems(Eval(st, chain[0]).st, chain[1..]))
  {
    var o := Eval(st, chain[0]);
    var rest := EvalElems(o.st, chain[1..]);
    var whole := EvalElems(st, chain);
    if rest.res.Ok? {
      assert whole.res.Ok? && whole.st == rest.st && whole.res.value == [o.res.value] + rest.res.value;
      assert p + ([o.res.value] + rest.res.value) == (p + [o.res.value]) + rest.res.value;
    } else {
      assert whole.st == rest.st && whole.res == rest.res;
    }
  }

  /** The head entry evaluated moves from the rest of the chain to the cells already built. */
  lemma PrefixedItems(p: seq<DictCell>, st: State, items: seq<DictItem>)
    requires Wf(st) && items != [] && EvalEntry(st, items[0]).res.Ok?
    ensures Prefixed(p, EvalItems(st, items))
         == Prefixed(p + [EvalEntry(st, items[0]).res.value], EvalItems(EvalEntry(st, items[0]).st, items[1..]))
  {
    var c := EvalEntry(st, items[0]);
    var rest := EvalItems(c.st, items[1..]);
    var whole := EvalItems(st, items);
    if rest.res.Ok? {
      assert whole.res.Ok? && whole.st == rest.st && whole.res.value == [c.res.value] + rest.res.value;
      assert p + ([c.res.value] + rest.res.value) == (p + [c.res.value]) + rest.res.value;
    } else {
      assert whole.st == rest.st && whole.res == rest.res;
    }
  }

  /** eval_expect_float (eval.c:173-181): a non-float value is a type mismatch. */
  function ExpectFloat(st: State, e: Expr): (out: Outcome<real>)
    requires Wf(st)
    ensures Wf(out.st) && Extends(st, out.st)
    decreases Size(e), 3
  {
    var o := Eval(st, e);
    if o.res.Err? then Fail(o)
    else match o.st.refs[o.res.value]
      case RFloat(f) => Outcome(o.st, Ok(f))
      case _ => Outcome(o.st, Err(TypeMismatch))
  }

  /**
   * Reading d[k] (eval.c:51-65): the value of the first cell whose key equals
   * k, or KeyNotFound.
   */
  function DictGet(st: State, d: RefId, k: RefId): (r: Result<RefId>)
    requires Wf(st) && IdIn(st, d) && st.refs[d].RDict? && IdIn(st, k)
    ensures r.Ok? ==> exists j :: 0 <= j < |st.refs[d].cells| && st.refs[d].cells[j].value == r.value
    ensures r.Ok? ==> st.refs[k].IsKey()
    ensures r == Err(KeyNotFound) <==>
      forall j :: 0 <= j < |st.refs[d].cells| ==> KeyEquals(st, st.refs[d].cells[j].key, k) == Ok(false)
    ensures var f := FindKey(st, st.refs[d].cells, k);
      r.Ok? <==> f.Ok? && f.value.Some?
    ensures var f := FindKey(st, st.refs[d].cells, k);
      r.Ok? ==> f.Ok? && f.value.Some? && r.value == st.refs[d].cells[f.value.value].value
  {
    assert RefWf(|st.refs|, st.refs[d]);
    var cells := st.refs[d].cells;
    match FindKey(st, cells, k)
    case Err(e) => Err(e)
    case Ok(None) => Err(KeyNotFound)
    case Ok(Some(j)) => Ok(cells[j].value)
  }

  /** A subscript read (eval.c:37-68): a list is indexed, a dict searched, anything else is not subscriptable. */
  function EvalSubscript(st: State, b: Expr, i: Expr): (out: Outcome<RefId>)
    requires Wf(st)
    ensures Wf(out.st) && Extends(st, out.st) && (out.res.Ok? ==> IdIn(out.st, out.res.value))
    decreases 1 + Size(b) + Size(i), 1
  {
    var o1 := Eval(st, b);
    if o1.res.Err? then Fail(o1)
    else
      var o2 := Index(o1.st, o1.res.value, i);
      ExtendsTrans(st, o1.st, o2.st);
      o2
  }

  /** The value at id b indexed by i: a list is indexed, a dict searched, anything else is not subscriptable. */
  function Index(st: State, b: RefId, i: Expr): (out: Outcome<RefId>)
    requires Wf(st) && IdIn(st, b)
    ensures Wf(out.st) && Extends(st, out.st) && (out.res.Ok? ==> IdIn(out.st, out.res.value))
    decreases Size(i) + 1, 1
  {
    match st.refs[b]
    case RList(_) => IndexList(st, b, i)
    case RDict(_) => IndexDict(st, b, i)
    case _ => Outcome(st, Err(NotSubscriptable))
  }

  /** The list at id l indexed by i (eval.c:39-53): the index truncated toward zero. */
  function IndexList(st: State, l: RefId, i: Expr): (out: Outcome<RefId>)
    requires Wf(st) && IdIn(st, l) && st.refs[l].RList?
    ensures Wf(out.st) && Extends(st, out.st) && (out.res.Ok? ==> IdIn(out.st, out.res.value))
    decreases Size(i) + 1, 0
  {
    var o := ExpectFloat(st, i);
    if o.res.Err? then Fail(o)
    else Outcome(o.st, ListAt(o.st.refs[l].elems, Trunc(o.res.value)))
  }

  /** The dict at id d searched for the value of i (eval.c:54-60). */
  function IndexDict(st: State, d: RefId, i: Expr): (out: Outcome<RefId>)
    requires Wf(st) && IdIn(st, d) && st.refs[d].RDict?
    ensures Wf(out.st) && Extends(st, out.st) && (out.res.Ok? ==> IdIn(out.st, out.res.value))
    decreases Size(i) + 1, 0
  {
    var o := Eval(st, i);
    if o.res.Err? then Fail(o)
    else Outcome(o.st, DictGet(o.st, d, o.res.value))
  }

  /**
   * Resolving d[k] as an lvalue (eval.c:137-155). A present key gives its
   * cell's value slot and changes nothing. A missing key puts one new cell at
   * the head of the dict, holding a clone of k and a placeholder float 0, and
   * gives that cell's slot. A key that is not a float or a string is
   * rejected, whatever the dict holds.
   */
  function DictSlot(st: State, d: RefId, k: RefId): (out: Outcome<Slot>)
    requires Wf(st) && IdIn(st, d) && st.refs[d].RDict? && IdIn(st, k)
    ensures Wf(out.st) && Extends(st, out.st)
    ensures out.res.Ok? <==> st.refs[k].IsKey()
    ensures out.res.Err? ==> out == Outcome(st, Err(InvalidKeyType))
    ensures out.res.Ok? ==> out.res.value.DictValue? && out.res.value.dict == d && SlotIn(out.st, out.res.value)
    ensures FindKey(st, st.refs[d].cells, k).Ok? && FindKey(st, st.refs[d].cells, k).value.Some? ==>
      out == Outcome(st, Ok(DictValue(d, FindKey(st, st.refs[d].cells, k).value.value)))
    ensures FindKey(st, st.refs[d].cells, k) == Ok(None) && st.refs[k].IsKey() ==>
      var n := |st.refs|;
      && out.res == Ok(DictValue(d, 0))
      && out.st.vars == st.vars
      && |out.st.refs| == n + 2
      && out.st.refs[n] == st.refs[k] && out.st.refs[n + 1] == RFloat(0.0)
      && out.st.refs[d] == RDict([DictCell(n, n + 1)] + st.refs[d].cells)
      && forall i :: 0 <= i < n && i != d ==> out.st.refs[i] == st.refs[i]
  {
    var cells := st.refs[d].cells;
    match FindKey(st, cells, k)
    case Err(e) => Outcome(st, Err(e))
    case Ok(Some(j)) => Outcome(st, Ok(DictValue(d, j)))
    case Ok(None) =>
      var c := KeyClone(st, k);
      if c.res.Err? then Fail(c)
      else
        var p := MakeRef(c.st, RFloat(0.0));
        ExtendsTrans(st, c.st, p.st);
        var dict := RDict([DictCell(c.res.value, p.res.value)] + cells);
        var st' := p.st.(refs := p.st.refs[d := dict]);
        assert Wf(st') by {
          forall i | 0 <= i < |st'.refs| ensures RefWf(|st'.refs|, st'.refs[i]) {
            if i == d {
              assert CellsIn(st, cells);
            } else {
              assert st'.refs[i] == p.st.refs[i];
            }
          }
        }
        Outcome(st', Ok(DictValue(d, 0)))
  }

  /** eval_expr_lval (eval.c:131-171): only identifiers, dict subscripts and assignments denote slots. */
  function EvalLval(st: State, e: Expr): (out: Outcome<Slot>)
    requires Wf(st)
    ensures Wf(out.st) && Extends(st, out.st) && (out.res.Ok? ==> SlotIn(out.st, out.res.value))
    decreases Size(e), 2
  {
    match e
    case Subscript(b, i) => EvalLvalSubscript(st, b, i)
    case Ident(n) =>
      var o := GetVar(st, n, true);
      if o.res.Err? then Fail(o) else Outcome(o.st, Ok(Global(o.res.value)))
    case Assign(t, r) => EvalAssign(st, t, r)
    case _ => Outcome(st, Err(NotAssignable))
  }

  /** A subscript as an lvalue (eval.c:135-158): the base must be a dict. */
  function EvalLvalSubscript(st: State, b: Expr, i: Expr): (out: Outcome<Slot>)
    requires Wf(st)
    ensures Wf(out.st) && Extends(st, out.st) && (out.res.Ok? ==> SlotIn(out.st, out.res.value))
    decreases 1 + Size(b) + Size(i), 1
  {
    var o1 := Eval(st, b);
    if o1.res.Err? then Fail(o1)
    else
      var o2 := LvalIndex(o1.st, o1.res.value, i);
      ExtendsTrans(st, o1.st, o2.st);
      o2
  }

  /** The slot for key i in the value at id d, which must be a dict (eval.c:137-157). */
  function LvalIndex(st: State, d: RefId, i: Expr): (out: Outcome<Slot>)
    requires Wf(st) && IdIn(st, d)
    ensures Wf(out.st) && Extends(st, out.st) && (out.res.Ok? ==> SlotIn(out.st, out.res.value))
    decreases Size(i) + 1, 1
  {
    if !st.refs[d].RDict? then Outcome(st, Err(NotAssignable))
    else
      var o := Eval(st, i);
      if o.res.Err? then Fail(o)
      else
        var o2 := DictSlot(o.st, d, o.res.value);
        ExtendsTrans(st, o.st, o2.st);
        o2
  }

  /**
   * t = r (eval.c:99-104 and 162-167): the right-hand side is evaluated first,
   * then the target resolved, then the value stored into the target's slot.
   */
  function EvalAssign(st: State, t: Expr, r: Expr): (out: Outcome<Slot>)
    requires Wf(st)
    ensures Wf(out.st) && Extends(st, out.st) && (out.res.Ok? ==> SlotIn(out.st, out.res.value))
    decreases 1 + Size(t) + Size(r), 1
  {
    var v := Eval(st, r);
    if v.res.Err? then Fail(v)
    else
      var o := AssignInto(v.st, t, v.res.value);
      ExtendsTrans(st, v.st, o.st);
      o
  }

  /** The target t resolved and the id v stored into its slot. */
  function AssignInto(st: State, t: Expr, v: RefId): (out: Outcome<Slot>)
    requires Wf(st) && IdIn(st, v)
    ensures Wf(out.st) && Extends(st, out.st) && (out.res.Ok? ==> SlotIn(out.st, out.res.value))
    decreases Size(t) + 1, 0
  {
    var l := EvalLval(st, t);
    if l.res.Err? then Fail(l)
    else
      var st' := Store(l.st, l.res.value, v);
      ExtendsTrans(st, l.st, st');
      Outcome(st', Ok(l.res.value))
  }

  /** eval_stmt (eval.c:22-31), each kind of statement on its own. */
  function EvalStmt(st: State, s: Stmt): (out: Outcome<()>)
    requires Wf(st)
    ensures Wf(out.st) && Extends(st, out.st)
  {
    match s
    case Del(n) => DeleteVar(st, n)
    case ExprStmt(e) =>
      var o := Eval(st, e);
      if o.res.Err? then Fail(o) else Outcome(o.st, Ok(()))
  }
}
