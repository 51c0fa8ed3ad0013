/**
 * Properties of the evaluator that relate several operations: reading back
 * what was stored, deleting then reading, the order of list literals, and
 * the errors of the subscript and arithmetic forms.
 */
module Properties {
  import opened Seqs
  import opened Ast
  import opened Values
  import opened Semantics

  /** x = r binds x, so reading x right after gives the id the assignment produced. */
  lemma AssignThenReadGlobal(st: State, x: string, r: Expr)
    requires Wf(st)
    ensures Eval(st, Assign(Ident(x), r)).res.Ok? <==> Eval(st, r).res.Ok?
    ensures var o := Eval(st, Assign(Ident(x), r));
      o.res.Ok? ==> o.res == Eval(st, r).res && Eval(o.st, Ident(x)) == o
  {
    var v := Eval(st, r);
    if v.res.Ok? {
      var g := GetVar(v.st, x, true);
      var i := g.res.value;
      assert EvalLval(v.st, Ident(x)) == Outcome(g.st, Ok(Global(i)));
      var st' := Store(g.st, Global(i), v.res.value);
      assert AssignInto(v.st, Ident(x), v.res.value) == Outcome(st', Ok(Global(i)));
      assert EvalAssign(st, Ident(x), r) == Outcome(st', Ok(Global(i)));
      assert Eval(st, Assign(Ident(x), r)) == Outcome(st', Ok(v.res.value));
      assert st'.vars[i].name == x;
      assert GetVar(st', x, false) == Outcome(st', Ok(i));
    }
  }

  /** del x, on a bound x, leaves x unbound: reading it fails. On an unbound x, del fails. */
  lemma DeleteThenRead(st: State, x: string)
    requires Wf(st)
    ensures EvalStmt(st, Del(x)).res.Ok? <==> Lookup(st.vars, x).Some?
    ensures var o := EvalStmt(st, Del(x));
      o.res.Ok? ==> Eval(o.st, Ident(x)) == Outcome(o.st, Err(UndefinedVariable(x)))
  {
  }

  /**
   * x = x on an unbound x fails with UndefinedVariable and changes nothing:
   * the right-hand side is read before the target is created.
   */
  lemma SelfAssignUnbound(st: State, x: string)
    requires Wf(st) && Lookup(st.vars, x).None?
    ensures Eval(st, Assign(Ident(x), Ident(x))) == Outcome(st, Err(UndefinedVariable(x)))
  {
    assert Eval(st, Ident(x)) == Outcome(st, Err(UndefinedVariable(x)));
    assert EvalAssign(st, Ident(x), Ident(x)) == Outcome(st, Err(UndefinedVariable(x)));
  }

  /**
   * Two tables in which the same cells match key k give the same search result:
   * the scan depends only on which keys equal k.
   */
  lemma FindKeyAgree(st1: State, st2: State, cells: seq<DictCell>, k: RefId)
    requires Wf(st1) && IdIn(st1, k) && CellsIn(st1, cells) && st1.refs[k].IsKey()
    requires Wf(st2) && IdIn(st2, k) && CellsIn(st2, cells) && st2.refs[k] == st1.refs[k]
    requires forall i :: 0 <= i < |cells| ==>
      (st1.refs[cells[i].key] == st1.refs[k] <==> st2.refs[cells[i].key] == st2.refs[k])
    ensures FindKey(st1, cells, k) == FindKey(st2, cells, k)
  {
  }

  /** Storing v into the value of the first cell that matches k makes d[k] read v. */
  lemma StoreThenGet(st: State, d: RefId, j: nat, k: RefId, v: RefId)
    requires Wf(st) && IdIn(st, d) && st.refs[d].RDict? && IdIn(st, k) && st.refs[k].IsKey() && IdIn(st, v)
    requires FindKey(st, st.refs[d].cells, k) == Ok(Some(j))
    ensures SlotIn(st, DictValue(d, j))
    ensures DictGet(Store(st, DictValue(d, j), v), d, k) == Ok(v)
  {
    assert RefWf(|st.refs|, st.refs[d]);
    FindKeyAfterStore(st, d, j, k, v);
  }

  /** A store into a dict cell leaves every search of that dict with the result it had. */
  lemma FindKeyAfterStore(st: State, d: RefId, j: nat, k: RefId, v: RefId)
    requires Wf(st) && SlotIn(st, DictValue(d, j)) && IdIn(st, k) && st.refs[k].IsKey() && IdIn(st, v)
    ensures var st' := Store(st, DictValue(d, j), v);
      && Wf(st') && st'.refs[d].RDict? && CellsIn(st', st'.refs[d].cells)
      && FindKey(st', st'.refs[d].cells, k) == FindKey(st, st.refs[d].cells, k)
  {
    var st' := Store(st, DictValue(d, j), v);
    var cells := st.refs[d].cells;
    assert RefWf(|st.refs|, st.refs[d]);
    StoreKeepsKeys(st, d, j, k, v);
    FindKeyAgree(st, st', cells, k);
    FindKeySameKeys(st', cells, st'.refs[d].cells, k);
  }

  /**
   * Storing into a dict cell keeps every key of that dict, and keeps which of
   * them equal a key k: only the dict's own slot changes, and it is no key.
   */
  lemma StoreKeepsKeys(st: State, d: RefId, j: nat, k: RefId, v: RefId)
    requires Wf(st) && SlotIn(st, DictValue(d, j)) && IdIn(st, k) && st.refs[k].IsKey() && IdIn(st, v)
    ensures var st', cells := Store(st, DictValue(d, j), v), st.refs[d].cells;
      && Wf(st') && st'.refs[d].RDict?
      && CellsIn(st', cells) && CellsIn(st', st'.refs[d].cells) && st'.refs[k] == st.refs[k]
      && |st'.refs[d].cells| == |cells|
      && (forall i :: 0 <= i < |cells| ==> st'.refs[d].cells[i].key == cells[i].key)
      && (forall i :: 0 <= i < |cells| ==>
            (st.refs[cells[i].key] == st.refs[k] <==> st'.refs[cells[i].key] == st'.refs[k]))
  {
    var st' := Store(st, DictValue(d, j), v);
    assert RefWf(|st.refs|, st.refs[d]);
    assert RefWf(|st'.refs|, st'.refs[d]);
  }

  /** The scan only looks at keys, so cells with the same keys give the same search result. */
  lemma {:induction false} FindKeySameKeys(st: State, cells: seq<DictCell>, cells': seq<DictCell>, k: RefId)
    requires Wf(st) && IdIn(st, k) && CellsIn(st, cells) && CellsIn(st, cells')
    requires |cells| == |cells'| && forall i :: 0 <= i < |cells| ==> cells'[i].key == cells[i].key
    ensures FindKey(st, cells, k) == FindKey(st, cells', k)
    decreases |cells|
  {
    if cells != [] {
      assert cells'[0].key == cells[0].key;
      FindKeySameKeys(st, cells[1..], cells'[1..], k);
    }
  }

  /**
   * After d[k] = v (eval.c:99-104 with 135-155), reading d[k] (eval.c:51-65)
   * yields v, whether k was present or a new cell had to be made for it.
   */
  lemma DictInsertThenRead(st: State, d: RefId, k: RefId, v: RefId)
    requires Wf(st) && IdIn(st, d) && st.refs[d].RDict? && IdIn(st, k) && st.refs[k].IsKey() && IdIn(st, v)
    ensures DictSlot(st, d, k).res.Ok?
    ensures var o := DictSlot(st, d, k);
      && o.st.refs[d].RDict? && IdIn(o.st, k) && IdIn(o.st, v)
      && Wf(Store(o.st, o.res.value, v))
      && DictGet(Store(o.st, o.res.value, v), d, k) == Ok(v)
  {
    var o := DictSlot(st, d, k);
    var cells := st.refs[d].cells;
    assert RefWf(|st.refs|, st.refs[d]);
    match FindKey(st, cells, k)
    case Ok(Some(j)) =>
      StoreThenGet(st, d, j, k, v);
    case Ok(None) =>
      var n := |st.refs|;
      var cells' := o.st.refs[d].cells;
      assert cells' == [DictCell(n, n + 1)] + cells;
      assert RefWf(|o.st.refs|, o.st.refs[d]);
      assert KeyEquals(o.st, cells'[0].key, k) == Ok(true);
      var r := FindKey(o.st, cells', k);
      assert r.Ok? && r.value.Some? && r.value.value == 0;
      StoreThenGet(o.st, d, 0, k, v);
  }

  /**
   * The dict scan only compares values: in a later state, a key id that holds
   * the same float or string as k finds the same cell k does.
   */
  lemma {:induction false} FindKeyLater(st: State, later: State, cells: seq<DictCell>, k: RefId, k': RefId)
    requires Wf(st) && Wf(later) && Extends(st, later) && CellsIn(st, cells)
    requires IdIn(st, k) && st.refs[k].IsKey() && IdIn(later, k') && later.refs[k'] == st.refs[k]
    ensures CellsIn(later, cells) && FindKey(later, cells, k') == FindKey(st, cells, k)
    decreases |cells|
  {
    if cells != [] {
      var a := cells[0].key;
      assert Keeps(st.refs[a], later.refs[a]);
      assert KeyEquals(later, a, k') == KeyEquals(st, a, k);
      FindKeyLater(st, later, cells[1..], k, k');
    }
  }

  /**
   * After d[k] = v, a later read of d with any key that holds the same value
   * as k yields v, as long as d itself has not changed since. This is the
   * read `d["x"]` after `d["x"] = 5`, whose key is a fresh reference of its own.
   */
  lemma DictInsertThenReadEqualKey(st: State, d: RefId, k: RefId, v: RefId, later: State, k': RefId)
    requires Wf(st) && IdIn(st, d) && st.refs[d].RDict? && IdIn(st, k) && st.refs[k].IsKey() && IdIn(st, v)
    requires var o := DictSlot(st, d, k);
      && o.res.Ok?
      && var after := Store(o.st, o.res.value, v);
      && Wf(later) && Extends(after, later) && later.refs[d] == after.refs[d]
      && IdIn(later, k') && later.refs[k'] == st.refs[k]
    ensures IdIn(later, d) && later.refs[d].RDict?
    ensures DictGet(later, d, k') == Ok(v)
  {
    DictInsertThenRead(st, d, k, v);
    var o := DictSlot(st, d, k);
    var after := Store(o.st, o.res.value, v);
    ExtendsTrans(st, o.st, after);
    assert Keeps(st.refs[k], after.refs[k]);
    var cells := after.refs[d].cells;
    assert RefWf(|after.refs|, after.refs[d]);
    FindKeyLater(after, later, cells, k, k');
  }

  /** A float or string literal: the keys a subscript can be written with. */
  predicate KeyLiteral(e: Expr)
  {
    e.StringLit? || e.FloatLit?
  }

  /** The float or string a key literal makes. */
  function LiteralValue(e: Expr): (v: Reference)
    requires KeyLiteral(e)
    ensures v.IsKey()
  {
    if e.StringLit? then RString(e.text) else RFloat(e.value)
  }

  /** name is bound, to a dict. */
  predicate BoundToDict(st: State, name: string)
    requires Wf(st)
  {
    match Lookup(st.vars, name)
    case Some(i) => st.refs[st.vars[i].ref].RDict?
    case None => false
  }

  /**
   * b[key] as an lvalue (eval.c:135-155), once b gave the dict d and key gave
   * the id k: the dict search for k.
   */
  lemma LvalSubscriptDict(st: State, name: string, key: Expr, d: RefId, ko: Outcome<RefId>)
    requires Wf(st) && Eval(st, Ident(name)) == Outcome(st, Ok(d)) && st.refs[d].RDict?
    requires Eval(st, key) == ko && ko.res.Ok?
    ensures var l, o := EvalLval(st, Subscript(Ident(name), key)), DictSlot(ko.st, d, ko.res.value);
      l.st == o.st && l.res == o.res
  {
    var o := DictSlot(ko.st, d, ko.res.value);
    var li := LvalIndex(st, d, key);
    assert li.st == o.st && li.res == o.res;
  }

  /**
   * name[key] = rhs (eval.c:99-104), once rhs gave x and the target resolved
   * to a slot: x is stored there and returned.
   */
  lemma AssignStored(st: State, name: string, key: Expr, rhs: Expr, sv: State, x: RefId, l: Outcome<Slot>)
    requires Wf(st) && Eval(st, rhs) == Outcome(sv, Ok(x))
    requires EvalLval(sv, Subscript(Ident(name), key)) == l && l.res.Ok?
    ensures SlotIn(l.st, l.res.value)
    ensures var o := Eval(st, Assign(Subscript(Ident(name), key), rhs));
      o.res == Ok(x) && o.st == Store(l.st, l.res.value, x)
  {
    var t := Subscript(Ident(name), key);
    var a := AssignInto(sv, t, x);
    assert a.st == Store(l.st, l.res.value, x) && a.res == Ok(l.res.value);
    var e := EvalAssign(st, t, rhs);
    assert e.st == a.st && e.res == a.res;
    EvalAssignOk(st, t, rhs);
  }

  /** A successful assignment expression gives the id now stored in its target (eval.c:99-104). */
  lemma EvalAssignOk(st: State, t: Expr, rhs: Expr)
    requires Wf(st) && EvalAssign(st, t, rhs).res.Ok?
    ensures var e := EvalAssign(st, t, rhs);
      var o := Eval(st, Assign(t, rhs));
      o.st == e.st && o.res == Ok(Read(e.st, e.res.value))
  {
  }

  /** name[key] as an rvalue on a dict (eval.c:54-60), once name gave d and key gave ko: the dict read of its id. */
  lemma ReadSubscriptDict(st: State, name: string, key: Expr, d: RefId, ko: Outcome<RefId>)
    requires Wf(st) && Eval(st, Ident(name)) == Outcome(st, Ok(d)) && st.refs[d].RDict?
    requires Eval(st, key) == ko && ko.res.Ok?
    ensures IdIn(ko.st, d) && ko.st.refs[d].RDict?
    ensures var o := Eval(st, Subscript(Ident(name), key));
      o.st == ko.st && o.res == DictGet(ko.st, d, ko.res.value)
  {
    var sk, k := ko.st, ko.res.value;
    assert Keeps(st.refs[d], sk.refs[d]);
    var r := IndexDict(st, d, key);
    assert r.st == sk && r.res == DictGet(sk, d, k);
    var x := Index(st, d, key);
    assert x.st == r.st && x.res == r.res;
    var e := EvalSubscript(st, Ident(name), key);
    assert e.st == x.st && e.res == x.res;
  }

  /** Resolving a dict slot changes no binding; storing into a dict cell changes no binding. */
  lemma DictSlotKeepsVars(st: State, d: RefId, k: RefId, v: RefId)
    requires Wf(st) && IdIn(st, d) && st.refs[d].RDict? && IdIn(st, k) && st.refs[k].IsKey() && IdIn(st, v)
    ensures var o := DictSlot(st, d, k);
      o.res.Ok? && Store(o.st, o.res.value, v).vars == st.vars
  {
    assert RefWf(|st.refs|, st.refs[d]);
    var o := DictSlot(st, d, k);
    assert o.st.vars == st.vars;
  }

  /**
   * name[key] = rhs, then name[key] (eval.c:99-104 with 135-155, then
   * eval.c:37-60), with name bound to a dict once rhs has run and key a float
   * or string literal: the assignment gives rhs's value and the read gives
   * it back, although each evaluation of the key makes a fresh reference.
   */
  lemma SubscriptAssignThenRead(st: State, name: string, key: Expr, rhs: Expr)
    requires Wf(st) && KeyLiteral(key)
    requires Eval(st, rhs).res.Ok? && BoundToDict(Eval(st, rhs).st, name)
    ensures var o := Eval(st, Assign(Subscript(Ident(name), key), rhs));
      && o.res == Eval(st, rhs).res
      && Eval(o.st, Subscript(Ident(name), key)).res == o.res
  {
    var v := Eval(st, rhs);
    var x := v.res.value;
    var d := EvalBoundDict(v.st, name);
    var k1 := Alloc(v.st, LiteralValue(key));
    EvalKeyLiteral(v.st, key);
    LvalSubscriptDict(v.st, name, key, d, k1);
    AssignStored(st, name, key, rhs, v.st, x, DictSlot(k1.st, d, k1.res.value));
    StoredThenRead(v.st, name, key, x);
  }

  /** The tables after x is stored under key in the dict name is bound to (eval.c:135-155 and 165). */
  function StoredUnder(st: State, name: string, key: Expr, x: RefId): State
    requires Wf(st) && KeyLiteral(key) && BoundToDict(st, name) && IdIn(st, x)
  {
    var d := st.vars[Lookup(st.vars, name).value].ref;
    AllocWf(st, LiteralValue(key));
    var k1 := Alloc(st, LiteralValue(key));
    var sl := DictSlot(k1.st, d, k1.res.value);
    Store(sl.st, sl.res.value, x)
  }

  /** Once x is stored under key, reading name[key] gives x back. */
  lemma StoredThenRead(st: State, name: string, key: Expr, x: RefId)
    requires Wf(st) && KeyLiteral(key) && BoundToDict(st, name) && IdIn(st, x)
    ensures Eval(StoredUnder(st, name, key, x), Subscript(Ident(name), key)).res == Ok(x)
  {
    var d := EvalBoundDict(st, name);
    var k1 := Alloc(st, LiteralValue(key));
    EvalKeyLiteral(st, key);
    var sl := DictSlot(k1.st, d, k1.res.value);
    DictSlotKeepsVars(k1.st, d, k1.res.value, x);
    var after := Store(sl.st, sl.res.value, x);
    ExtendsTrans(st, k1.st, sl.st);
    ExtendsTrans(st, sl.st, after);
    BoundToDictKept(st, after, name);
    var d' := EvalBoundDict(after, name);
    var k2 := Alloc(after, LiteralValue(key));
    EvalKeyLiteral(after, key);
    assert k2.st.refs[d] == after.refs[d];
    DictInsertThenReadEqualKey(k1.st, d, k1.res.value, x, k2.st, k2.res.value);
    ReadSubscriptDict(after, name, key, d, k2);
  }

  /** A key literal makes one fresh slot holding its value (eval.c:76-79). */
  lemma EvalKeyLiteral(st: State, key: Expr)
    requires Wf(st) && KeyLiteral(key)
    ensures Eval(st, key) == Alloc(st, LiteralValue(key))
    ensures Wf(Alloc(st, LiteralValue(key)).st) && Extends(st, Alloc(st, LiteralValue(key)).st)
  {
    AllocWf(st, LiteralValue(key));
  }

  /** A name bound to a dict reads as that dict's id and changes nothing (eval.c:73-75). */
  lemma EvalBoundDict(st: State, name: string) returns (d: RefId)
    requires Wf(st) && BoundToDict(st, name)
    ensures d == st.vars[Lookup(st.vars, name).value].ref
    ensures IdIn(st, d) && st.refs[d].RDict?
    ensures Eval(st, Ident(name)) == Outcome(st, Ok(d))
  {
    d := st.vars[Lookup(st.vars, name).value].ref;
  }

  /** A later state with the same bindings, in which no slot changed kind, still binds name to the same dict. */
  lemma BoundToDictKept(st: State, later: State, name: string)
    requires Wf(st) && Wf(later) && BoundToDict(st, name) && later.vars == st.vars && Extends(st, later)
    ensures BoundToDict(later, name)
    ensures later.vars[Lookup(later.vars, name).value].ref == st.vars[Lookup(st.vars, name).value].ref
  {
    var d := st.vars[Lookup(st.vars, name).value].ref;
    assert Keeps(st.refs[d], later.refs[d]);
  }

  /**
   * A key clone stays equal to its original: floats and strings are never
   * changed after they are made, so nothing that happens later can part them.
   */
  lemma CloneStaysEqual(st: State, k: RefId, st': State)
    requires Wf(st) && IdIn(st, k) && st.refs[k].IsKey()
    requires Extends(KeyClone(st, k).st, st')
    ensures KeyClone(st, k).res.Ok?
    ensures var c := KeyClone(st, k).res.value;
      IdIn(st', c) && IdIn(st', k) && KeyEquals(st', c, k) == Ok(true)
  {
    var o := KeyClone(st, k);
    var c := o.res.value;
    assert Keeps(o.st.refs[c], st'.refs[c]) && Keeps(o.st.refs[k], st'.refs[k]);
  }

  /** The float literals fs as a chain of expressions. */
  function Floats(fs: seq<real>): (chain: seq<Expr>)
    ensures |chain| == |fs| && forall j :: 0 <= j < |fs| ==> chain[j] == FloatLit(fs[j])
  {
    seq(|fs|, j requires 0 <= j < |fs| => FloatLit(fs[j]))
  }

  /** chain[j] is the float literal cs[j], for every j. */
  predicate FloatLits(chain: seq<Expr>, cs: seq<real>)
  {
    |chain| == |cs| && forall j :: 0 <= j < |chain| ==> chain[j] == FloatLit(cs[j])
  }

  /**
   * Growing the table refs to later made one fresh float per value of cs, in
   * order, with ids ids: slot |refs| + j holds cs[j] and nothing below refs changed.
   */
  predicate FreshFloats(refs: seq<Reference>, later: seq<Reference>, ids: seq<RefId>, cs: seq<real>)
  {
    && |later| == |refs| + |cs| && later[..|refs|] == refs && |ids| == |cs|
    && forall j :: 0 <= j < |cs| ==> ids[j] == |refs| + j && later[|refs| + j] == RFloat(cs[j])
  }

  /**
   * o made one list, the reference right after base + |vals| others, whose
   * element k holds the float vals[k].
   */
  predicate ListOfFloats(o: Outcome<RefId>, base: nat, vals: seq<real>)
  {
    && o.res.Ok?
    && o.res.value == base + |vals| < |o.st.refs|
    && o.st.refs[o.res.value].RList?
    && |o.st.refs[o.res.value].elems| == |vals|
    && forall k :: 0 <= k < |vals| ==>
         var id := o.st.refs[o.res.value].elems[k];
         0 <= id < |o.st.refs| && o.st.refs[id] == RFloat(vals[k])
  }

  /** A chain of float literals makes one fresh float per element, in chain order. */
  lemma {:induction false} FloatChain(st: State, chain: seq<Expr>, cs: seq<real>)
    requires Wf(st) && FloatLits(chain, cs)
    ensures var o := EvalElems(st, chain);
      o.res.Ok? && o.st.vars == st.vars && FreshFloats(st.refs, o.st.refs, o.res.value, cs)
    decreases |chain|
  {
    if chain != [] {
      EvalFloatLit(st, cs[0]);
      var o1 := Eval(st, chain[0]);
      assert o1.st == State(st.refs + [RFloat(cs[0])], st.vars);
      assert FloatLits(chain[1..], cs[1..]);
      FloatChain(o1.st, chain[1..], cs[1..]);
      EvalElemsCons(st, chain);
      var rest := EvalElems(o1.st, chain[1..]);
      ConsFreshFloats(st.refs, cs[0], cs[1..], rest.st.refs, rest.res.value);
      assert [cs[0]] + cs[1..] == cs;
    }
  }

  /** One fresh float c in front of fresh floats cs' are fresh floats [c] + cs'. */
  lemma ConsFreshFloats(refs: seq<Reference>, c: real, cs': seq<real>, later: seq<Reference>, ids': seq<RefId>)
    requires FreshFloats(refs + [RFloat(c)], later, ids', cs')
    ensures FreshFloats(refs, later, [|refs|] + ids', [c] + cs')
  {
    var n, ids, cs := |refs|, [|refs|] + ids', [c] + cs';
    forall j | 0 <= j < |cs|
      ensures ids[j] == n + j && later[n + j] == RFloat(cs[j])
    {
      if j == 0 {
        assert later[n] == later[..n + 1][n];
      } else {
        assert ids[j] == ids'[j - 1] && cs[j] == cs'[j - 1];
      }
    }
    assert later[..n] == later[..n + 1][..n];
  }

  /** A chain whose head and rest both evaluate gives the head's id in front of the rest's. */
  lemma EvalElemsCons(st: State, chain: seq<Expr>)
    requires Wf(st) && chain != [] && Eval(st, chain[0]).res.Ok?
    requires EvalElems(Eval(st, chain[0]).st, chain[1..]).res.Ok?
    ensures var o1 := Eval(st, chain[0]); var rest := EvalElems(o1.st, chain[1..]);
      EvalElems(st, chain) == Outcome(rest.st, Ok([o1.res.value] + rest.res.value))
  {
    var o1 := Eval(st, chain[0]);
    var rest := EvalElems(o1.st, chain[1..]);
    assert !o1.res.Err? && !rest.res.Err?;
  }

  /**
   * A list literal written [f0, f1, ...] in the source holds fresh floats
   * f0, f1, ... in source order: the parser builds the chain back to front
   * (read_list_literal) and the evaluator prepends as it walks the chain
   * (eval.c:80-87), and the two reversals cancel.
   */
  lemma ListLiteralInSourceOrder(st: State, fs: seq<real>)
    requires Wf(st)
    ensures ListOfFloats(Eval(st, ListLiteral(Floats(fs))), |st.refs|, fs)
  {
    ReversedFloatLits(fs);
    ReverseReverse(fs);
    ChainListOrder(st, Reverse(Floats(fs)), Reverse(fs));
  }

  /** The parser's chain of float literals holds the values back to front. */
  lemma ReversedFloatLits(fs: seq<real>)
    ensures FloatLits(Reverse(Floats(fs)), Reverse(fs))
  {
    var chain, cs, n := Reverse(Floats(fs)), Reverse(fs), |fs|;
    forall j | 0 <= j < n
      ensures chain[j] == FloatLit(cs[j])
    {
      assert chain[j] == Floats(fs)[n - 1 - j];
    }
  }

  /** A chain of float literals c0, c1, ... makes a list holding them back to front. */
  lemma ChainListOrder(st: State, chain: seq<Expr>, cs: seq<real>)
    requires Wf(st) && FloatLits(chain, cs)
    ensures ListOfFloats(Eval(st, ListLit(chain)), |st.refs|, Reverse(cs))
  {
    FloatChain(st, chain, cs);
    EvalListLit(st, chain);
    var ev := EvalElems(st, chain);
    FreshFloatsReversed(st.refs, ev.st, ev.res.value, Reverse(ev.res.value), cs);
  }

  /** Fresh floats c0, c1, ... whose ids a new list holds back to front: the list holds the values back to front. */
  lemma FreshFloatsReversed(refs: seq<Reference>, st: State, ids: seq<RefId>, elems: seq<RefId>, cs: seq<real>)
    requires FreshFloats(refs, st.refs, ids, cs)
    requires |elems| == |ids| && forall k :: 0 <= k < |ids| ==> elems[k] == ids[|ids| - 1 - k]
    ensures ListOfFloats(Alloc(st, RList(elems)), |refs|, Reverse(cs))
  {
    var n, base := |cs|, |refs|;
    var refs' := st.refs + [RList(elems)];
    assert Alloc(st, RList(elems)).st.refs == refs';
    forall k | 0 <= k < n
      ensures 0 <= elems[k] < |refs'| && refs'[elems[k]] == RFloat(Reverse(cs)[k])
    {
      assert elems[k] == base + (n - 1 - k);
    }
  }

  /** A list literal whose elements evaluate makes one fresh list of their ids, read back to front. */
  lemma EvalListLit(st: State, chain: seq<Expr>)
    requires Wf(st) && EvalElems(st, chain).res.Ok?
    ensures var ev := EvalElems(st, chain);
      Eval(st, ListLit(chain)) == Alloc(ev.st, RList(Reverse(ev.res.value)))
  {
  }

  /** A dict literal whose entries evaluate makes one fresh dict of their cells, read back to front (eval.c:89-97). */
  lemma EvalDictLit(st: State, items: seq<DictItem>)
    requires Wf(st) && EvalItems(st, items).res.Ok?
    ensures var ev := EvalItems(st, items);
      Eval(st, DictLit(items)) == Alloc(ev.st, RDict(Reverse(ev.res.value)))
  {
  }

  /**
   * The dict literal the parser builds for source entries e0, e1, ...
   * evaluates the chain ParsedChain(source), which holds ek at position n-1-k,
   * and makes one fresh dict of the evaluated cells read back to front.
   */
  lemma EvalDictLiteral(st: State, source: seq<DictItem>)
    requires Wf(st) && EvalItems(st, ParsedChain(source)).res.Ok?
    ensures var ev := EvalItems(st, ParsedChain(source));
      Eval(st, DictLiteral(source)) == Alloc(ev.st, RDict(Reverse(ev.res.value)))
  {
    EvalDictLit(st, ParsedChain(source));
  }

  /** The entries k0: v0, k1: v1, ... with float-literal keys and values, from the pairs (kj, vj). */
  function FloatPairs(ps: seq<(real, real)>): (items: seq<DictItem>)
    ensures FloatItems(items, ps)
  {
    seq(|ps|, j requires 0 <= j < |ps| => DictItem(FloatLit(ps[j].0), FloatLit(ps[j].1)))
  }

  /** items[j] is the entry ps[j].0: ps[j].1 of float literals, for every j. */
  predicate FloatItems(items: seq<DictItem>, ps: seq<(real, real)>)
  {
    |items| == |ps| && forall j :: 0 <= j < |items| ==> items[j] == DictItem(FloatLit(ps[j].0), FloatLit(ps[j].1))
  }

  /**
   * Growing the table refs to later made two fresh floats per entry, key
   * before value: slots |refs| + 2j and |refs| + 2j + 1 hold ps[j].0 and
   * ps[j].1, cell j names them, and nothing below refs changed.
   */
  predicate FreshPairs(refs: seq<Reference>, later: seq<Reference>, cells: seq<DictCell>, ps: seq<(real, real)>)
  {
    && |later| == |refs| + 2 * |ps| && later[..|refs|] == refs && |cells| == |ps|
    && forall j :: 0 <= j < |ps| ==>
         && cells[j] == DictCell(|refs| + 2 * j, |refs| + 2 * j + 1)
         && later[|refs| + 2 * j] == RFloat(ps[j].0) && later[|refs| + 2 * j + 1] == RFloat(ps[j].1)
  }

  /**
   * o made one dict, the reference right after base + 2|ps| others, whose
   * cell k has a key holding the float ps[k].0 and a value holding ps[k].1.
   */
  predicate DictOfFloats(o: Outcome<RefId>, base: nat, ps: seq<(real, real)>)
  {
    && o.res.Ok?
    && o.res.value == base + 2 * |ps| < |o.st.refs|
    && o.st.refs[o.res.value].RDict?
    && |o.st.refs[o.res.value].cells| == |ps|
    && forall k :: 0 <= k < |ps| ==>
         var c := o.st.refs[o.res.value].cells[k];
         && 0 <= c.key < |o.st.refs| && 0 <= c.value < |o.st.refs|
         && o.st.refs[c.key] == RFloat(ps[k].0) && o.st.refs[c.value] == RFloat(ps[k].1)
  }

  /** An entry a: b of float literals makes the key's float, then the value's, as one cell. */
  lemma EvalFloatEntry(st: State, a: real, b: real)
    requires Wf(st)
    ensures var c := EvalEntry(st, DictItem(FloatLit(a), FloatLit(b))); var n := |st.refs|;
      c.res == Ok(DictCell(n, n + 1)) && c.st == State(st.refs + [RFloat(a), RFloat(b)], st.vars)
  {
    var n := |st.refs|;
    var s1 := State(st.refs + [RFloat(a)], st.vars);
    EvalFloatLit(st, a);
    var k := Eval(st, FloatLit(a));
    assert k.st == s1 && k.res == Ok(n);
    EvalFloatLit(s1, b);
    var v := Eval(s1, FloatLit(b));
    assert s1.refs + [RFloat(b)] == st.refs + [RFloat(a), RFloat(b)];
    assert v.st == State(st.refs + [RFloat(a), RFloat(b)], st.vars) && v.res == Ok(n + 1);
  }

  /** A chain of float-literal entries makes two fresh floats per entry, in chain order. */
  lemma {:induction false} FloatItemsChain(st: State, items: seq<DictItem>, ps: seq<(real, real)>)
    requires Wf(st) && FloatItems(items, ps)
    ensures var o := EvalItems(st, items);
      o.res.Ok? && o.st.vars == st.vars && FreshPairs(st.refs, o.st.refs, o.res.value, ps)
    decreases |items|
  {
    if items != [] {
      EvalFloatEntry(st, ps[0].0, ps[0].1);
      var c := EvalEntry(st, items[0]);
      assert c.st == State(st.refs + [RFloat(ps[0].0), RFloat(ps[0].1)], st.vars);
      assert FloatItems(items[1..], ps[1..]);
      FloatItemsChain(c.st, items[1..], ps[1..]);
      var rest := EvalItems(c.st, items[1..]);
      EvalItemsCons(st, items, c, rest);
      ConsFreshPairs(st.refs, ps[0], ps[1..], rest.st.refs, rest.res.value);
      assert [ps[0]] + ps[1..] == ps;
    }
  }

  /** One fresh pair p in front of fresh pairs for ps' are fresh pairs for [p] + ps'. */
  lemma ConsFreshPairs(refs: seq<Reference>, p: (real, real), ps': seq<(real, real)>,
                       later: seq<Reference>, cells': seq<DictCell>)
    requires FreshPairs(refs + [RFloat(p.0), RFloat(p.1)], later, cells', ps')
    ensures FreshPairs(refs, later, [DictCell(|refs|, |refs| + 1)] + cells', [p] + ps')
  {
    var n, cells, ps := |refs|, [DictCell(|refs|, |refs| + 1)] + cells', [p] + ps';
    forall j | 0 <= j < |ps|
      ensures && cells[j] == DictCell(n + 2 * j, n + 2 * j + 1)
              && later[n + 2 * j] == RFloat(ps[j].0) && later[n + 2 * j + 1] == RFloat(ps[j].1)
    {
      if j == 0 {
        assert later[n] == later[..n + 2][n] && later[n + 1] == later[..n + 2][n + 1];
      } else {
        assert cells[j] == cells'[j - 1] && ps[j] == ps'[j - 1];
      }
    }
    assert later[..n] == later[..n + 2][..n];
  }

  /** A chain whose head entry and rest both evaluate gives the head's cell in front of the rest's. */
  lemma EvalItemsCons(st: State, items: seq<DictItem>, c: Outcome<DictCell>, rest: Outcome<seq<DictCell>>)
    requires Wf(st) && items != [] && c == EvalEntry(st, items[0]) && c.res.Ok?
    requires rest == EvalItems(c.st, items[1..]) && rest.res.Ok?
    ensures var o := EvalItems(st, items);
      o.res.Ok? && o.st == rest.st && o.res.value == [c.res.value] + rest.res.value
  {
  }

  /** The parser's chain of float-literal entries holds the pairs back to front. */
  lemma ReversedFloatItems(ps: seq<(real, real)>)
    ensures FloatItems(Reverse(FloatPairs(ps)), Reverse(ps))
  {
    var items, rs, n := Reverse(FloatPairs(ps)), Reverse(ps), |ps|;
    forall j | 0 <= j < n
      ensures items[j] == DictItem(FloatLit(rs[j].0), FloatLit(rs[j].1))
    {
      assert items[j] == FloatPairs(ps)[n - 1 - j];
    }
  }

  /** Fresh pairs whose cells a new dict holds back to front: the dict holds the pairs back to front. */
  lemma FreshPairsReversed(refs: seq<Reference>, st: State, cells: seq<DictCell>, rcells: seq<DictCell>,
                           ps: seq<(real, real)>)
    requires FreshPairs(refs, st.refs, cells, ps)
    requires |rcells| == |cells| && forall k :: 0 <= k < |cells| ==> rcells[k] == cells[|cells| - 1 - k]
    ensures DictOfFloats(Alloc(st, RDict(rcells)), |refs|, Reverse(ps))
  {
    var n, base := |ps|, |refs|;
    var refs' := st.refs + [RDict(rcells)];
    assert Alloc(st, RDict(rcells)).st.refs == refs';
    forall k | 0 <= k < n
      ensures && 0 <= rcells[k].key < |refs'| && 0 <= rcells[k].value < |refs'|
              && refs'[rcells[k].key] == RFloat(Reverse(ps)[k].0) && refs'[rcells[k].value] == RFloat(Reverse(ps)[k].1)
    {
      assert rcells[k] == DictCell(base + 2 * (n - 1 - k), base + 2 * (n - 1 - k) + 1);
    }
  }

  /** A chain of float-literal entries makes a dict holding them back to front. */
  lemma ChainDictOrder(st: State, items: seq<DictItem>, ps: seq<(real, real)>)
    requires Wf(st) && FloatItems(items, ps)
    ensures DictOfFloats(Eval(st, DictLit(items)), |st.refs|, Reverse(ps))
  {
    FloatItemsChain(st, items, ps);
    EvalDictLit(st, items);
    var ev := EvalItems(st, items);
    FreshPairsReversed(st.refs, ev.st, ev.res.value, Reverse(ev.res.value), ps);
  }

  /**
   * A dict literal written {k0: v0, k1: v1, ...} in the source holds its
   * entries in source order: the parser builds the chain back to front
   * (read_dict_literal) and the evaluator prepends as it walks the chain
   * (eval.c:89-97), and the two reversals cancel.
   */
  lemma DictLiteralInSourceOrder(st: State, ps: seq<(real, real)>)
    requires Wf(st)
    ensures DictOfFloats(Eval(st, DictLiteral(FloatPairs(ps))), |st.refs|, ps)
  {
    ReversedFloatItems(ps);
    ReverseReverse(ps);
    ChainDictOrder(st, Reverse(FloatPairs(ps)), Reverse(ps));
  }

  /** A float literal makes one fresh float, and as an operand it yields its value. */
  lemma EvalFloatLit(st: State, f: real)
    requires Wf(st)
    ensures Eval(st, FloatLit(f)) == Alloc(st, RFloat(f))
    ensures ExpectFloat(st, FloatLit(f)) == Outcome(Alloc(st, RFloat(f)).st, Ok(f))
  {
  }

  /**
   * l[f] with a float literal f reads the element at f truncated toward zero:
   * a negative index reads the head, an index at or past the length is out
   * of bounds (eval.c:39-53).
   */
  lemma ListIndexLiteral(st: State, l: RefId, f: real)
    requires Wf(st) && IdIn(st, l) && st.refs[l].RList?
    ensures var o := Index(st, l, FloatLit(f)); var elems := st.refs[l].elems;
      && o.st == Alloc(st, RFloat(f)).st
      && o.res == ListAt(elems, Trunc(f))
      && (o.res.Ok? <==> 0 < |elems| && Trunc(f) < |elems|)
      && (Trunc(f) >= |elems| ==> o.res == Err(IndexOutOfBounds(Trunc(f))))
  {
    EvalFloatLit(st, f);
  }

  /** Arithmetic whose operands are both floats makes one fresh float with the result. */
  lemma EvalArith(st: State, op: ArithOp, l: Expr, r: Expr)
    requires Wf(st) && ExpectFloat(st, l).res.Ok? && ExpectFloat(ExpectFloat(st, l).st, r).res.Ok?
    ensures var a := ExpectFloat(st, l); var b := ExpectFloat(a.st, r);
      Eval(st, Arith(op, l, r)) == Alloc(b.st, RFloat(Apply(op, a.res.value, b.res.value)))
  {
  }

  /** Arithmetic on two float literals makes both operands, then one fresh float with the result. */
  lemma ArithLiterals(st: State, op: ArithOp, a: real, b: real)
    requires Wf(st)
    ensures var o := Eval(st, Arith(op, FloatLit(a), FloatLit(b))); var n := |st.refs|;
      && o.res == Ok(n + 2)
      && o.st == State(st.refs + [RFloat(a), RFloat(b), RFloat(Apply(op, a, b))], st.vars)
  {
    var s1 := Alloc(st, RFloat(a)).st;
    var s2 := Alloc(s1, RFloat(b)).st;
    EvalFloatLit(st, a);
    EvalFloatLit(s1, b);
    EvalArith(st, op, FloatLit(a), FloatLit(b));
    assert s2.refs + [RFloat(Apply(op, a, b))] == st.refs + [RFloat(a), RFloat(b), RFloat(Apply(op, a, b))];
  }

  /** Negating an operand that reads as the float f makes one fresh float holding -f (eval.c:69-72). */
  lemma EvalNegate(st: State, x: Expr, st': State, f: real)
    requires Wf(st) && ExpectFloat(st, x) == Outcome(st', Ok(f))
    ensures Eval(st, Negate(x)) == Alloc(st', RFloat(-f))
  {
  }

  /** Negating a float literal makes the float, then one fresh float holding its negation. */
  lemma NegateFloat(st: State, f: real)
    requires Wf(st)
    ensures Eval(st, Negate(FloatLit(f))) == Alloc(Alloc(st, RFloat(f)).st, RFloat(-f))
  {
    EvalFloatLit(st, f);
    EvalNegate(st, FloatLit(f), Alloc(st, RFloat(f)).st, f);
  }

  /**
   * A left operand that evaluates to something other than a float is a type
   * mismatch (eval.c:105-125 with 173-181): the right operand is never
   * evaluated and the state is the one the left operand left.
   */
  lemma ArithNonFloatLeft(st: State, op: ArithOp, l: Expr, r: Expr)
    requires Wf(st) && Eval(st, l).res.Ok? && !Eval(st, l).st.refs[Eval(st, l).res.value].RFloat?
    ensures Eval(st, Arith(op, l, r)) == Outcome(Eval(st, l).st, Err(TypeMismatch))
  {
    assert ExpectFloat(st, l) == Outcome(Eval(st, l).st, Err(TypeMismatch));
  }

  /**
   * A float left operand and a right operand that evaluates to something
   * other than a float is a type mismatch, after both operands were evaluated.
   */
  lemma ArithNonFloatRight(st: State, op: ArithOp, l: Expr, r: Expr)
    requires Wf(st) && ExpectFloat(st, l).res.Ok?
    requires var a := ExpectFloat(st, l).st;
      Eval(a, r).res.Ok? && !Eval(a, r).st.refs[Eval(a, r).res.value].RFloat?
    ensures var a := ExpectFloat(st, l).st;
      Eval(st, Arith(op, l, r)) == Outcome(Eval(a, r).st, Err(TypeMismatch))
  {
    var a := ExpectFloat(st, l);
    assert ExpectFloat(a.st, r) == Outcome(Eval(a.st, r).st, Err(TypeMismatch));
    assert ArithWith(a.st, op, a.res.value, r) == Outcome(Eval(a.st, r).st, Err(TypeMismatch));
  }

  /** A string as the left operand of arithmetic is a type mismatch, right after the string was made. */
  lemma ArithStringLeft(st: State, op: ArithOp, s: string, r: Expr)
    requires Wf(st)
    ensures Eval(st, Arith(op, StringLit(s), r)) == Outcome(Alloc(st, RString(s)).st, Err(TypeMismatch))
  {
    ArithNonFloatLeft(st, op, StringLit(s), r);
  }

  /** Negating a string is a type mismatch (eval.c:69-72 with 173-181), after the string was made. */
  lemma NegateString(st: State, s: string)
    requires Wf(st)
    ensures Eval(st, Negate(StringLit(s))) == Outcome(Alloc(st, RString(s)).st, Err(TypeMismatch))
  {
    assert ExpectFloat(st, StringLit(s)) == Outcome(Alloc(st, RString(s)).st, Err(TypeMismatch));
  }

  /**
   * A list or a dict used as a key in an lvalue subscript is rejected before
   * the dict is touched (eval.c:137-155 with 336-347).
   */
  lemma CompositeKeyRejected(st: State, d: RefId, k: RefId)
    requires Wf(st) && IdIn(st, d) && st.refs[d].RDict? && IdIn(st, k)
    requires st.refs[k].RList? || st.refs[k].RDict?
    ensures DictSlot(st, d, k) == Outcome(st, Err(InvalidKeyType))
  {
  }

  /** Reading a missing key from a dict is KeyNotFound, whatever the key's kind. */
  lemma MissingKeyNotFound(st: State, d: RefId, k: RefId)
    requires Wf(st) && IdIn(st, d) && st.refs[d].RDict? && IdIn(st, k)
    requires forall j :: 0 <= j < |st.refs[d].cells| ==> st.refs[st.refs[d].cells[j].key].Tag() != st.refs[k].Tag()
    ensures DictGet(st, d, k) == Err(KeyNotFound)
  {
    assert RefWf(|st.refs|, st.refs[d]);
  }
}
