/**
 * The interpreter state of eval.c as one object: ref_table with num_refs and
 * max_refs (the array's length), global_vars with num_vars and max_vars, and
 * the procedures that update them in place. Every procedure is proved to
 * compute the function of the same name in modules Values and Semantics, on
 * the used parts of the two arrays.
 */
module Interp {
  import opened Seqs
  import opened Ast
  import opened Values
  import opened Semantics

  /** INITIAL_SIZE (global.h:19): the first capacity of a growing array. */
  const INITIAL_SIZE: nat := 8

  /** The capacity after appending to a table of count n and capacity cap: malloc, double when full, else keep. */
  function Grown(n: nat, cap: nat): (c: nat)
    ensures 0 < c && cap <= c
    ensures cap > 0 ==> c <= 2 * cap
  {
    if cap == 0 then INITIAL_SIZE else if n == cap then 2 * cap else cap
  }

  /** realloc: a fresh array of capacity cap holding the first n elements of a. */
  method Realloc<T>(a: array<T>, n: nat, cap: nat, filler: T) returns (b: array<T>)
    requires n <= a.Length && n <= cap
    ensures fresh(b) && b.Length == cap && b[..n] == a[..n]
  {
    b := new T[cap](_ => filler);
    var i := 0;
    while i < n
      invariant 0 <= i <= n
      invariant b[..i] == a[..i]
    {
      b[i] := a[i];
      i := i + 1;
    }
  }

  /**
   * The list walk of eval.c:41-50 over the values of the list's cells; the
   * position |elems| stands for the NULL after the last cell.
   */
  method WalkList(elems: seq<RefId>, idx: int) returns (r: Result<RefId>)
    ensures r == ListAt(elems, idx)
  {
    var node := 0;
    if node == |elems| {
      return Err(IndexOutOfBounds(idx));
    }
    var i := 0;
    while i < idx
      invariant 0 <= i && (0 <= idx ==> i <= idx) && (idx < 0 ==> i == 0)
      invariant node == i < |elems|
    {
      node := node + 1;
      if node == |elems| {
        return Err(IndexOutOfBounds(idx));
      }
      i := i + 1;
    }
    return Ok(elems[node]);
  }

  /** Moves a[i + 1], ..., a[n - 1] down one place each, over a[i]; a[n - 1] and what follows keep their values. */
  method SlideDown<T>(a: array<T>, i: nat, n: nat)
    requires i < n <= a.Length
    modifies a
    ensures a[..n - 1] == old(a[..i]) + old(a[i + 1..n])
    ensures a[n - 1..] == old(a[n - 1..])
  {
    var j := i;
    while j < n - 1
      invariant i <= j <= n - 1
      invariant a[..i] == old(a[..i])
      invariant a[i..j] == old(a[i + 1..j + 1])
      invariant a[j..] == old(a[j..])
    {
      a[j] := a[j + 1];
      j := j + 1;
    }
  }

  class Session {
    var refTable: array<Reference>
    var numRefs: nat
    var globalVars: array<Binding>
    var numVars: nat
    /** The used parts of both tables, as the state the functions of Semantics act on. */
    ghost var tables: State
    /** The arrays the session owns: the current two and every one it has replaced. */
    ghost var Repr: set<object>

    ghost predicate Valid()
      reads this, Repr
    {
      && refTable in Repr && globalVars in Repr
      && numRefs <= refTable.Length && numVars <= globalVars.Length
      && refTable[..numRefs] == tables.refs
      && globalVars[..numVars] == tables.vars
    }

    /** Both tables start unallocated, with count and capacity 0. */
    constructor ()
      ensures Valid() && fresh(Repr) && tables == Initial
      ensures refTable.Length == 0 && globalVars.Length == 0
    {
      refTable := new Reference[0];
      numRefs := 0;
      globalVars := new Binding[0];
      numVars := 0;
      tables := Initial;
      Repr := {refTable, globalVars};
    }

    /** deref (eval.c:261-263), for an id in the table. */
    function Deref(id: RefId): (r: Reference)
      reads this, Repr
      requires Valid() && IdIn(tables, id)
      ensures r == tables.refs[id]
    {
      assert refTable[..numRefs][id] == refTable[id];
      refTable[id]
    }

    /**
     * make_reference (eval.c:282-299): appends an EMPTY slot and returns the
     * previous count, the capacity doubling when the table is full.
     */
    method MakeReference() returns (id: RefId)
      requires Valid()
      modifies this, refTable
      ensures Valid() && globalVars == old(globalVars) && numVars == old(numVars)
      ensures refTable == old(refTable) || fresh(refTable)
      ensures Repr == old(Repr) + {refTable}
      ensures refTable.Length == Grown(old(numRefs), old(refTable.Length))
      ensures id == old(numRefs)
      ensures tables == old(tables).(refs := old(tables).refs + [REmpty])
    {
      if refTable.Length == 0 {
        refTable := new Reference[INITIAL_SIZE];
      } else if numRefs == refTable.Length {
        refTable := Realloc(refTable, numRefs, 2 * refTable.Length, REmpty);
      }
      Repr := Repr + {refTable};
      assert refTable[..numRefs] == tables.refs;
      refTable[numRefs] := REmpty;
      id := numRefs;
      numRefs := numRefs + 1;
      tables := tables.(refs := tables.refs + [REmpty]);
      assert refTable[..numRefs] == refTable[..id] + [REmpty];
    }

    /** Gives the slot id the value v (the deref(r)->... assignments of make_reference_*). */
    method SetRef(id: RefId, v: Reference)
      requires Valid() && IdIn(tables, id)
      modifies this, refTable
      ensures Valid() && refTable == old(refTable) && globalVars == old(globalVars) && Repr == old(Repr)
      ensures numRefs == old(numRefs) && numVars == old(numVars)
      ensures tables == old(tables).(refs := old(tables).refs[id := v])
    {
      refTable[id] := v;
      tables := tables.(refs := tables.refs[id := v]);
      assert refTable[..numRefs] == old(refTable[..numRefs])[id := v];
    }

    /** make_reference followed by tagging: the new id holds v. */
    method MakeTagged(v: Reference) returns (id: RefId)
      requires Valid()
      modifies this, refTable
      ensures Valid() && globalVars == old(globalVars) && numVars == old(numVars)
      ensures refTable == old(refTable) || fresh(refTable)
      ensures Repr == old(Repr) + {refTable}
      ensures Alloc(old(tables), v) == Outcome(tables, Ok(id))
    {
      id := MakeReference();
      SetRef(id, v);
    }

    /** make_reference_float (eval.c:301-308). */
    method MakeReferenceFloat(f: real) returns (id: RefId)
      requires Valid()
      modifies this, refTable
      ensures Valid() && globalVars == old(globalVars) && numVars == old(numVars)
      ensures refTable == old(refTable) || fresh(refTable)
      ensures Repr == old(Repr) + {refTable}
      ensures Alloc(old(tables), RFloat(f)) == Outcome(tables, Ok(id))
    {
      id := MakeTagged(RFloat(f));
    }

    /** make_reference_string (eval.c:310-315); the characters are copied. */
    method MakeReferenceString(s: string) returns (id: RefId)
      requires Valid()
      modifies this, refTable
      ensures Valid() && globalVars == old(globalVars) && numVars == old(numVars)
      ensures refTable == old(refTable) || fresh(refTable)
      ensures Repr == old(Repr) + {refTable}
      ensures Alloc(old(tables), RString(s)) == Outcome(tables, Ok(id))
    {
      id := MakeTagged(RString(s));
    }

    /** make_reference_list (eval.c:317-322). */
    method MakeReferenceList(elems: seq<RefId>) returns (id: RefId)
      requires Valid()
      modifies this, refTable
      ensures Valid() && globalVars == old(globalVars) && numVars == old(numVars)
      ensures refTable == old(refTable) || fresh(refTable)
      ensures Repr == old(Repr) + {refTable}
      ensures Alloc(old(tables), RList(elems)) == Outcome(tables, Ok(id))
    {
      id := MakeTagged(RList(elems));
    }

    /** make_reference_dict (eval.c:324-329). */
    method MakeReferenceDict(cells: seq<DictCell>) returns (id: RefId)
      requires Valid()
      modifies this, refTable
      ensures Valid() && globalVars == old(globalVars) && numVars == old(numVars)
      ensures refTable == old(refTable) || fresh(refTable)
      ensures Repr == old(Repr) + {refTable}
      ensures Alloc(old(tables), RDict(cells)) == Outcome(tables, Ok(id))
    {
      id := MakeTagged(RDict(cells));
    }

    /** The scan of global_vars for name (eval.c:184-188, 220-221): the first binding with that name. */
    method FindVariable(name: string) returns (r: Option<nat>)
      requires Valid()
      ensures r == Lookup(tables.vars, name)
    {
      var i := 0;
      while i < numVars
        invariant 0 <= i <= numVars
        invariant forall j :: 0 <= j < i ==> tables.vars[j].name != name
      {
        assert globalVars[..numVars][i] == globalVars[i];
        if globalVars[i].name == name {
          return Some(i);
        }
        i := i + 1;
      }
      return None;
    }

    /**
     * The create branch of get_global_variable (eval.c:190-211): grows
     * global_vars like ref_table, then appends name bound to a fresh
     * placeholder float 0.
     */
    method AppendVariable(name: string) returns (i: nat)
      requires Valid()
      modifies this, Repr
      ensures Valid()
      ensures fresh(Repr - old(Repr))
      ensures globalVars.Length == Grown(old(numVars), old(globalVars.Length))
      ensures i == old(numVars)
      ensures tables == State(old(tables).refs + [RFloat(0.0)], old(tables).vars + [Binding(name, old(numRefs))])
    {
      GrowVariables();
      globalVars[numVars] := Binding(name, -1);
      assert globalVars[..numVars] == tables.vars;
      var ref := MakeReferenceFloat(0.0);
      SetVariable(name, ref);
      i := numVars - 1;
    }

    /** The capacity check of eval.c:191-203: malloc when unallocated, realloc to double when full. */
    method GrowVariables()
      requires Valid()
      modifies this
      ensures Valid() && numVars < globalVars.Length
      ensures globalVars.Length == Grown(old(numVars), old(globalVars.Length))
      ensures globalVars == old(globalVars) || fresh(globalVars)
      ensures Repr == old(Repr) + {globalVars}
      ensures refTable == old(refTable) && numRefs == old(numRefs) && numVars == old(numVars) && tables == old(tables)
    {
      if globalVars.Length == 0 {
        globalVars := new Binding[INITIAL_SIZE];
      } else if numVars == globalVars.Length {
        globalVars := Realloc(globalVars, numVars, 2 * globalVars.Length, Binding("", -1));
      }
      Repr := Repr + {globalVars};
    }

    /** Fills the free slot after the last binding with name bound to ref (eval.c:205-210). */
    method SetVariable(name: string, ref: RefId)
      requires Valid() && numVars < globalVars.Length
      modifies this, globalVars
      ensures Valid() && refTable == old(refTable) && globalVars == old(globalVars) && Repr == old(Repr)
      ensures numRefs == old(numRefs) && numVars == old(numVars) + 1
      ensures tables == old(tables).(vars := old(tables).vars + [Binding(name, ref)])
    {
      globalVars[numVars] := Binding(name, ref);
      numVars := numVars + 1;
      tables := tables.(vars := tables.vars + [Binding(name, ref)]);
      assert globalVars[..numVars] == old(globalVars[..numVars]) + [Binding(name, ref)];
    }

    /**
     * get_global_variable (eval.c:183-215): the index of name's binding,
     * appending a binding to a placeholder float 0 when create is set.
     */
    method GetGlobalVariable(name: string, create: bool) returns (r: Result<nat>)
      requires Valid() && Wf(tables)
      modifies this, Repr
      ensures Valid()
      ensures fresh(Repr - old(Repr))
      ensures GetVar(old(tables), name, create) == Outcome(tables, r)
    {
      var found := FindVariable(name);
      if found.Some? {
        return Ok(found.value);
      }
      if !create {
        return Err(UndefinedVariable(name));
      }
      var i := AppendVariable(name);
      return Ok(i);
    }

    /**
     * Removes binding i by sliding every later binding down one place and
     * clearing the vacated last slot (name NULL, ref -1).
     */
    method RemoveVariable(i: nat)
      requires Valid() && i < numVars
      modifies this, globalVars
      ensures Valid() && refTable == old(refTable) && globalVars == old(globalVars) && Repr == old(Repr)
      ensures numRefs == old(numRefs) && numVars == old(numVars) - 1
      ensures tables == old(tables).(vars := old(tables).vars[..i] + old(tables).vars[i + 1..])
    {
      var n := numVars;
      ghost var vars := tables.vars;
      assert vars[..i] == globalVars[..i] && vars[i + 1..] == globalVars[i + 1..n];
      SlideDown(globalVars, i, n);
      globalVars[n - 1] := Binding("", -1);
      numVars := n - 1;
      tables := tables.(vars := vars[..i] + vars[i + 1..]);
      assert globalVars[..numVars] == vars[..i] + vars[i + 1..];
    }

    /**
     * delete_global_variable (eval.c:217-238): every binding after the
     * deleted one slides down by one place, as the comment at eval.c:222 says.
     */
    method DeleteGlobalVariable(name: string) returns (r: Result<()>)
      requires Valid() && Wf(tables)
      modifies this, globalVars
      ensures Valid() && refTable == old(refTable) && globalVars == old(globalVars) && Repr == old(Repr)
      ensures DeleteVar(old(tables), name) == Outcome(tables, r)
    {
      var found := FindVariable(name);
      if found.None? {
        return Err(UndefinedVariable(name));
      }
      RemoveVariable(found.value);
      return Ok(());
    }

    /** key_equals (eval.c:240-259) on the session's table. */
    method KeyEquality(a: RefId, b: RefId) returns (r: Result<bool>)
      requires Valid() && IdIn(tables, a) && IdIn(tables, b)
      requires !(tables.refs[a].REmpty? && tables.refs[b].REmpty?)
      ensures r == KeyEquals(tables, a, b)
    {
      var ra, rb := Deref(a), Deref(b);
      if ra.Tag() != rb.Tag() {
        return Ok(false);
      }
      match ra
      case RFloat(f) => r := Ok(f == rb.f);
      case RString(s) => r := Ok(s == rb.s);
      case _ => r := Err(InvalidKeyType);
    }

    /** key_clone (eval.c:336-347): a fresh copy of a float or string key. */
    method KeyClone(k: RefId) returns (r: Result<RefId>)
      requires Valid() && Wf(tables) && IdIn(tables, k)
      modifies this, refTable
      ensures Valid() && globalVars == old(globalVars) && numVars == old(numVars)
      ensures refTable == old(refTable) || fresh(refTable)
      ensures Repr == old(Repr) + {refTable}
      ensures Values.KeyClone(old(tables), k) == Outcome(tables, r)
    {
      match Deref(k)
      case RFloat(f) =>
        var c := MakeReferenceFloat(f);
        r := Ok(c);
      case RString(s) =>
        var c := MakeReferenceString(s);
        r := Ok(c);
      case _ =>
        r := Err(InvalidKeyType);
    }

    /** The dict scan of eval.c:55-59 and 141-145, stepping to the next cell after each mismatch. */
    method ScanDict(cells: seq<DictCell>, key: RefId) returns (r: Result<Option<nat>>)
      requires Valid() && Wf(tables) && IdIn(tables, key) && CellsIn(tables, cells)
      ensures r == FindKey(tables, cells, key)
    {
      var node := 0;
      while node < |cells|
        invariant 0 <= node <= |cells|
        invariant forall i :: 0 <= i < node ==> KeyEquals(tables, cells[i].key, key) == Ok(false)
      {
        var eq := KeyEquality(cells[node].key, key);
        if eq.Err? {
          return Err(eq.error);
        }
        if eq.value {
          return Ok(Some(node));
        }
        node := node + 1;
      }
      return Ok(None);
    }

    /** *lval (eval.c:102 and 126): the id a slot holds. */
    function ReadSlot(slot: Slot): (r: RefId)
      reads this, Repr
      requires Valid() && SlotIn(tables, slot)
      ensures r == Read(tables, slot)
    {
      match slot
      case Global(i) =>
        assert globalVars[..numVars][i] == globalVars[i];
        globalVars[i].ref
      case DictValue(d, j) =>
        assert refTable[..numRefs][d] == refTable[d];
        refTable[d].cells[j].value
    }

    /** *lval = v (eval.c:102 and 165). */
    method StoreSlot(slot: Slot, v: RefId)
      requires Valid() && SlotIn(tables, slot)
      modifies this, refTable, globalVars
      ensures Valid() && refTable == old(refTable) && globalVars == old(globalVars) && Repr == old(Repr)
      ensures tables == Store(old(tables), slot, v)
    {
      match slot
      case Global(i) =>
        globalVars[i] := globalVars[i].(ref := v);
        tables := tables.(vars := tables.vars[i := tables.vars[i].(ref := v)]);
        assert globalVars[..numVars] == old(globalVars[..numVars])[i := old(globalVars[..numVars])[i].(ref := v)];
      case DictValue(d, j) =>
        var cells := Deref(d).cells;
        SetRef(d, RDict(cells[j := cells[j].(value := v)]));
    }

    /** eval_expect_float (eval.c:173-181). */
    method EvalExpectFloat(e: Expr) returns (r: Result<real>)
      requires Valid() && Wf(tables)
      modifies this, Repr
      ensures Valid()
      ensures fresh(Repr - old(Repr))
      ensures ExpectFloat(old(tables), e) == Outcome(tables, r)
      decreases Size(e), 3
    {
      var id := EvalExpr(e);
      if id.Err? {
        return Err(id.error);
      }
      match Deref(id.value)
      case RFloat(f) => r := Ok(f);
      case _ => r := Err(TypeMismatch);
    }

    /** eval_expr (eval.c:33-129). */
    method EvalExpr(e: Expr) returns (r: Result<RefId>)
      requires Valid() && Wf(tables)
      modifies this, Repr
      ensures Valid()
      ensures fresh(Repr - old(Repr))
      ensures Eval(old(tables), e) == Outcome(tables, r)
      decreases Size(e), 2
    {
      match e
      case Subscript(b, i) =>
        r := ReadSubscript(b, i);
      case Negate(x) =>
        r := Negation(x);
      case Ident(n) =>
        r := ReadVariable(n);
      case StringLit(s) =>
        var id := MakeReferenceString(s);
        r := Ok(id);
      case FloatLit(f) =>
        var id := MakeReferenceFloat(f);
        r := Ok(id);
      case ListLit(chain) =>
        r := BuildList(chain);
      case DictLit(items) =>
        r := BuildDict(items);
      case Assign(t, rhs) =>
        r := Assignment(t, rhs);
      case Arith(op, lhs, rhs) =>
        r := Arithmetic(op, lhs, rhs);
    }

    /** EXPR_NEGATE (eval.c:69-72): the operand as a float, then a fresh float of its negation. */
    method Negation(x: Expr) returns (r: Result<RefId>)
      requires Valid() && Wf(tables)
      modifies this, Repr
      ensures Valid()
      ensures fresh(Repr - old(Repr))
      ensures Eval(old(tables), Negate(x)) == Outcome(tables, r)
      decreases Size(x) + 1, 1
    {
      var f := EvalExpectFloat(x);
      if f.Err? {
        return Err(f.error);
      }
      var id := MakeReferenceFloat(-f.value);
      r := Ok(id);
    }

    /** EXPR_IDENT (eval.c:73-75): the id the variable's binding holds; an unbound name is an error. */
    method ReadVariable(n: string) returns (r: Result<RefId>)
      requires Valid() && Wf(tables)
      modifies this, Repr
      ensures Valid()
      ensures fresh(Repr - old(Repr))
      ensures Eval(old(tables), Ident(n)) == Outcome(tables, r)
    {
      var slot := GetGlobalVariable(n, false);
      if slot.Err? {
        return Err(slot.error);
      }
      r := Ok(globalVars[slot.value].ref);
    }

    /** EXPR_ASSIGN (eval.c:99-104): the assignment, then the id now in the target's slot. */
    method Assignment(t: Expr, rhs: Expr) returns (r: Result<RefId>)
      requires Valid() && Wf(tables)
      modifies this, Repr
      ensures Valid()
      ensures fresh(Repr - old(Repr))
      ensures Eval(old(tables), Assign(t, rhs)) == Outcome(tables, r)
      decreases 1 + Size(t) + Size(rhs), 1
    {
      var slot := AssignTo(t, rhs);
      if slot.Err? {
        return Err(slot.error);
      }
      var v := ReadSlot(slot.value);
      r := Ok(v);
    }

    /** A subscript read (eval.c:37-68). */
    method ReadSubscript(b: Expr, i: Expr) returns (r: Result<RefId>)
      requires Valid() && Wf(tables)
      modifies this, Repr
      ensures Valid()
      ensures fresh(Repr - old(Repr))
      ensures EvalSubscript(old(tables), b, i) == Outcome(tables, r)
      decreases 1 + Size(b) + Size(i), 1
    {
      var lhs := EvalExpr(b);
      if lhs.Err? {
        return Err(lhs.error);
      }
      r := ReadItem(lhs.value, i);
    }

    /** The subscript dispatch (eval.c:38-68) on the evaluated base. */
    method ReadItem(b: RefId, i: Expr) returns (r: Result<RefId>)
      requires Valid() && Wf(tables) && IdIn(tables, b)
      modifies this, Repr
      ensures Valid()
      ensures fresh(Repr - old(Repr))
      ensures Index(old(tables), b, i) == Outcome(tables, r)
      decreases Size(i) + 1, 1
    {
      match Deref(b)
      case RList(_) =>
        r := ReadListItem(b, i);
      case RDict(_) =>
        r := ReadDictItem(b, i);
      case _ =>
        r := Err(NotSubscriptable);
    }

    /** A list read (eval.c:39-53). */
    method ReadListItem(l: RefId, i: Expr) returns (r: Result<RefId>)
      requires Valid() && Wf(tables) && IdIn(tables, l) && tables.refs[l].RList?
      modifies this, Repr
      ensures Valid()
      ensures fresh(Repr - old(Repr))
      ensures IndexList(old(tables), l, i) == Outcome(tables, r)
      decreases Size(i) + 1, 0
    {
      ghost var st0 := tables;
      var f := EvalExpectFloat(i);
      if f.Err? {
        return Err(f.error);
      }
      assert Keeps(st0.refs[l], tables.refs[l]);
      r := WalkList(Deref(l).elems, Trunc(f.value));
    }

    /** A dict read (eval.c:54-60). */
    method ReadDictItem(d: RefId, i: Expr) returns (r: Result<RefId>)
      requires Valid() && Wf(tables) && IdIn(tables, d) && tables.refs[d].RDict?
      modifies this, Repr
      ensures Valid()
      ensures fresh(Repr - old(Repr))
      ensures IndexDict(old(tables), d, i) == Outcome(tables, r)
      decreases Size(i) + 1, 0
    {
      ghost var st0 := tables;
      var key := EvalExpr(i);
      if key.Err? {
        return Err(key.error);
      }
      assert Keeps(st0.refs[d], tables.refs[d]);
      r := DictLookup(d, key.value);
    }

    /** The dict search of a subscript read (eval.c:55-60), changing nothing. */
    method DictLookup(d: RefId, k: RefId) returns (r: Result<RefId>)
      requires Valid() && Wf(tables) && IdIn(tables, d) && tables.refs[d].RDict? && IdIn(tables, k)
      ensures r == DictGet(tables, d, k)
    {
      var cells := Deref(d).cells;
      assert RefWf(|tables.refs|, tables.refs[d]);
      var found := ScanDict(cells, k);
      match found
      case Err(err) => r := Err(err);
      case Ok(None) => r := Err(KeyNotFound);
      case Ok(Some(j)) => r := Ok(cells[j].value);
    }

    /** A list literal (eval.c:80-88): the elements, then one list reference holding them. */
    method BuildList(chain: seq<Expr>) returns (r: Result<RefId>)
      requires Valid() && Wf(tables)
      modifies this, Repr
      ensures Valid()
      ensures fresh(Repr - old(Repr))
      ensures Eval(old(tables), ListLit(chain)) == Outcome(tables, r)
      decreases 1 + ChainSize(chain), 1
    {
      var elems := EvalChain(chain);
      if elems.Err? {
        return Err(elems.error);
      }
      var id := MakeReferenceList(elems.value);
      r := Ok(id);
    }

    /**
     * The loop of eval.c:83-86: the chain is walked from its head and each
     * element's id put at the front of the list being built.
     */
    method EvalChain(chain: seq<Expr>) returns (r: Result<seq<RefId>>)
      requires Valid() && Wf(tables)
      modifies this, Repr
      ensures Valid()
      ensures fresh(Repr - old(Repr))
      ensures Reversed(EvalElems(old(tables), chain)) == Outcome(tables, r)
      decreases 1 + ChainSize(chain), 0
    {
      ghost var st0 := tables;
      var evalList: seq<RefId> := [];
      ghost var vals: seq<RefId> := [];
      var node := chain;
      assert EvalElems(st0, chain).res.Ok? ==> [] + EvalElems(st0, chain).res.value == EvalElems(st0, chain).res.value;
      while node != []
        invariant Valid() && Wf(tables)
        invariant fresh(Repr - old(Repr))
        invariant ChainSize(node) <= ChainSize(chain)
        invariant EvalElems(st0, chain) == Prefixed(vals, EvalElems(tables, node))
        invariant evalList == Reverse(vals)
        decreases |node|
      {
        ghost var s := tables;
        var v := EvalExpr(node[0]);
        if v.Err? {
          return Err(v.error);
        }
        PrefixedElems(vals, s, node);
        evalList := [v.value] + evalList;
        ReverseSnoc(vals, v.value);
        vals := vals + [v.value];
        node := node[1..];
      }
      assert vals + [] == vals;
      r := Ok(evalList);
    }

    /** A dict literal (eval.c:89-98): the entries, then one dict reference holding them. */
    method BuildDict(items: seq<DictItem>) returns (r: Result<RefId>)
      requires Valid() && Wf(tables)
      modifies this, Repr
      ensures Valid()
      ensures fresh(Repr - old(Repr))
      ensures Eval(old(tables), DictLit(items)) == Outcome(tables, r)
      decreases 1 + ItemsSize(items), 1
    {
      var cells := EvalEntries(items);
      if cells.Err? {
        return Err(cells.error);
      }
      var id := MakeReferenceDict(cells.value);
      r := Ok(id);
    }

    /**
     * The loop of eval.c:92-96: the chain is walked from its head, key before
     * value, and each new cell put at the front of the dict being built.
     */
    method EvalEntries(items: seq<DictItem>) returns (r: Result<seq<DictCell>>)
      requires Valid() && Wf(tables)
      modifies this, Repr
      ensures Valid()
      ensures fresh(Repr - old(Repr))
      ensures Reversed(EvalItems(old(tables), items)) == Outcome(tables, r)
      decreases 1 + ItemsSize(items), 0
    {
      ghost var st0 := tables;
      var evalDict: seq<DictCell> := [];
      ghost var cells: seq<DictCell> := [];
      var node := items;
      assert EvalItems(st0, items).res.Ok? ==> [] + EvalItems(st0, items).res.value == EvalItems(st0, items).res.value;
      while node != []
        invariant Valid() && Wf(tables)
        invariant fresh(Repr - old(Repr))
        invariant ItemsSize(node) <= ItemsSize(items)
        invariant EvalItems(st0, items) == Prefixed(cells, EvalItems(tables, node))
        invariant evalDict == Reverse(cells)
        decreases |node|
      {
        ghost var s := tables;
        var c := EvalDictEntry(node[0]);
        if c.Err? {
          return Err(c.error);
        }
        PrefixedItems(cells, s, node);
        evalDict := [c.value] + evalDict;
        ReverseSnoc(cells, c.value);
        cells := cells + [c.value];
        node := node[1..];
      }
      assert cells + [] == cells;
      r := Ok(evalDict);
    }

    /** One pass of the loop of eval.c:92-96: the key, then the value. */
    method EvalDictEntry(item: DictItem) returns (r: Result<DictCell>)
      requires Valid() && Wf(tables)
      modifies this, Repr
      ensures Valid()
      ensures fresh(Repr - old(Repr))
      ensures EvalEntry(old(tables), item) == Outcome(tables, r)
      decreases ItemSize(item), 3
    {
      var k := EvalExpr(item.key);
      if k.Err? {
        return Err(k.error);
      }
      var v := EvalExpr(item.value);
      if v.Err? {
        return Err(v.error);
      }
      r := Ok(DictCell(k.value, v.value));
    }

    /** EXPR_ADD, EXPR_SUB, EXPR_MULT and EXPR_DIV (eval.c:105-125). */
    method Arithmetic(op: ArithOp, lhs: Expr, rhs: Expr) returns (r: Result<RefId>)
      requires Valid() && Wf(tables)
      modifies this, Repr
      ensures Valid()
      ensures fresh(Repr - old(Repr))
      ensures Eval(old(tables), Arith(op, lhs, rhs)) == Outcome(tables, r)
      decreases 1 + Size(lhs) + Size(rhs), 1
    {
      var a := EvalExpectFloat(lhs);
      if a.Err? {
        return Err(a.error);
      }
      r := ArithmeticWith(op, a.value, rhs);
    }

    /** The right operand of an arithmetic expression whose left operand gave x, then the result (eval.c:107-124). */
    method ArithmeticWith(op: ArithOp, x: real, rhs: Expr) returns (r: Result<RefId>)
      requires Valid() && Wf(tables)
      modifies this, Repr
      ensures Valid()
      ensures fresh(Repr - old(Repr))
      ensures ArithWith(old(tables), op, x, rhs) == Outcome(tables, r)
      decreases Size(rhs) + 1, 0
    {
      var b := EvalExpectFloat(rhs);
      if b.Err? {
        return Err(b.error);
      }
      var id := MakeReferenceFloat(Apply(op, x, b.value));
      r := Ok(id);
    }

    /** t = rhs: the right-hand side, then the target's slot, then the store. */
    method AssignTo(t: Expr, rhs: Expr) returns (r: Result<Slot>)
      requires Valid() && Wf(tables)
      modifies this, Repr
      ensures Valid()
      ensures fresh(Repr - old(Repr))
      ensures EvalAssign(old(tables), t, rhs) == Outcome(tables, r)
      decreases 1 + Size(t) + Size(rhs), 0
    {
      ghost var before := tables;
      var v := EvalExpr(rhs);
      if v.Err? {
        assert EvalAssign(before, t, rhs) == Outcome(tables, Err(v.error));
        return Err(v.error);
      }
      ghost var mid := tables;
      r := AssignValue(t, v.value);
      assert EvalAssign(before, t, rhs) == AssignInto(mid, t, v.value);
    }

    /** The target's slot resolved and the id v stored into it (eval.c:102 and 165). */
    method AssignValue(t: Expr, v: RefId) returns (r: Result<Slot>)
      requires Valid() && Wf(tables) && IdIn(tables, v)
      modifies this, Repr
      ensures Valid()
      ensures fresh(Repr - old(Repr))
      ensures AssignInto(old(tables), t, v) == Outcome(tables, r)
      decreases Size(t) + 1, 0
    {
      var slot := EvalExprLval(t);
      if slot.Err? {
        return Err(slot.error);
      }
      StoreSlot(slot.value, v);
      r := Ok(slot.value);
    }

    /** eval_expr_lval (eval.c:131-171). */
    method EvalExprLval(e: Expr) returns (r: Result<Slot>)
      requires Valid() && Wf(tables)
      modifies this, Repr
      ensures Valid()
      ensures fresh(Repr - old(Repr))
      ensures EvalLval(old(tables), e) == Outcome(tables, r)
      decreases Size(e), 2
    {
      match e
      case Subscript(b, i) =>
        r := ResolveSubscript(b, i);
      case Ident(n) =>
        var g := GetGlobalVariable(n, true);
        if g.Err? {
          return Err(g.error);
        }
        r := Ok(Global(g.value));
      case Assign(t, rhs) =>
        r := AssignTo(t, rhs);
      case _ =>
        r := Err(NotAssignable);
    }

    /** A subscript as an lvalue (eval.c:135-158). */
    method ResolveSubscript(b: Expr, i: Expr) returns (r: Result<Slot>)
      requires Valid() && Wf(tables)
      modifies this, Repr
      ensures Valid()
      ensures fresh(Repr - old(Repr))
      ensures EvalLvalSubscript(old(tables), b, i) == Outcome(tables, r)
      decreases 1 + Size(b) + Size(i), 1
    {
      ghost var before := tables;
      var lhs := EvalExpr(b);
      if lhs.Err? {
        assert EvalLvalSubscript(before, b, i) == Outcome(tables, Err(lhs.error));
        return Err(lhs.error);
      }
      ghost var mid := tables;
      r := ResolveItem(lhs.value, i);
      assert EvalLvalSubscript(before, b, i) == LvalIndex(mid, lhs.value, i);
    }

    /** The slot for key i in the value at id d, which must be a dict (eval.c:137-157). */
    method ResolveItem(d: RefId, i: Expr) returns (r: Result<Slot>)
      requires Valid() && Wf(tables) && IdIn(tables, d)
      modifies this, Repr
      ensures Valid()
      ensures fresh(Repr - old(Repr))
      ensures LvalIndex(old(tables), d, i) == Outcome(tables, r)
      decreases Size(i) + 1, 1
    {
      if !Deref(d).RDict? {
        return Err(NotAssignable);
      }
      r := ResolveDictItem(d, i);
    }

    /** The slot for key i in the dict at id d (eval.c:138-155): the key, then the dict search. */
    method ResolveDictItem(d: RefId, i: Expr) returns (r: Result<Slot>)
      requires Valid() && Wf(tables) && IdIn(tables, d) && tables.refs[d].RDict?
      modifies this, Repr
      ensures Valid()
      ensures fresh(Repr - old(Repr))
      ensures LvalIndex(old(tables), d, i) == Outcome(tables, r)
      decreases Size(i) + 1, 0
    {
      ghost var st0 := tables;
      var key := EvalExpr(i);
      if key.Err? {
        assert LvalIndex(st0, d, i) == Outcome(tables, Err(key.error));
        return Err(key.error);
      }
      assert Keeps(st0.refs[d], tables.refs[d]);
      ghost var mid := tables;
      r := ResolveDictSlot(d, key.value);
      assert LvalIndex(st0, d, i) == DictSlot(mid, d, key.value);
    }

    /**
     * The dict search of an lvalue subscript (eval.c:139-155): the slot of the
     * matching cell, or of a new head cell with a cloned key and a placeholder.
     */
    method ResolveDictSlot(d: RefId, k: RefId) returns (r: Result<Slot>)
      requires Valid() && Wf(tables) && IdIn(tables, d) && tables.refs[d].RDict? && IdIn(tables, k)
      modifies this, Repr
      ensures Valid()
      ensures fresh(Repr - old(Repr))
      ensures DictSlot(old(tables), d, k) == Outcome(tables, r)
    {
      var cells := Deref(d).cells;
      assert RefWf(|tables.refs|, tables.refs[d]);
      var found := ScanDict(cells, k);
      match found
      case Err(err) =>
        return Err(err);
      case Ok(Some(j)) =>
        return Ok(DictValue(d, j));
      case Ok(None) =>
        var c := KeyClone(k);
        if c.Err? {
          return Err(c.error);
        }
        var p := MakeReferenceFloat(0.0);
        SetRef(d, RDict([DictCell(c.value, p)] + cells));
        return Ok(DictValue(d, 0));
    }

    /** eval_stmt (eval.c:22-31), without the fall-through from STMT_DEL into STMT_EXPR. */
    method EvalStmt(s: Stmt) returns (r: Result<()>)
      requires Valid() && Wf(tables)
      modifies this, Repr
      ensures Valid()
      ensures fresh(Repr - old(Repr))
      ensures Semantics.EvalStmt(old(tables), s) == Outcome(tables, r)
    {
      match s
      case Del(n) =>
        r := DeleteGlobalVariable(n);
      case ExprStmt(e) =>
        var v := EvalExpr(e);
        r := if v.Err? then Err(v.error) else Ok(());
    }
  }
}
