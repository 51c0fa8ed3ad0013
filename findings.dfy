/**
 * Three places where eval.c does something other than what its comments and
 * its callers evidently intend. Each is modelled as written, with an input
 * that shows the difference, next to the intended definition that the rest
 * of the model uses.
 */
module Findings {
  import opened Values
  import opened Interp

  /**
   * delete_global_variable as written (eval.c:222-229): the binding at i is
   * overwritten by the one after it, and the count drops by one. Only one
   * binding moves, although the comment asks for the whole array to slide.
   */
  function DeleteAsWritten(vars: seq<Binding>, i: nat): (vars': seq<Binding>)
    requires i < |vars|
    ensures |vars'| == |vars| - 1
  {
    if i != |vars| - 1 then vars[i := vars[i + 1]][..|vars| - 1] else vars[..|vars| - 1]
  }

  /** Deleting the first of a, b, c leaves b twice and loses c; the intended delete leaves b, c. */
  lemma DeleteAsWrittenLosesBinding()
    ensures var vars := [Binding("a", 0), Binding("b", 1), Binding("c", 2)];
      && DeleteAsWritten(vars, 0) == [Binding("b", 1), Binding("b", 1)]
      && !NamesUnique(DeleteAsWritten(vars, 0))
      && DeleteVar(State([RFloat(0.0), RFloat(1.0), RFloat(2.0)], vars), "a").st.vars == [Binding("b", 1), Binding("c", 2)]
  {
    var vars := [Binding("a", 0), Binding("b", 1), Binding("c", 2)];
    assert DeleteAsWritten(vars, 0)[0].name == DeleteAsWritten(vars, 0)[1].name;
    assert Lookup(vars, "a") == Some(0);
  }

  /** The intended delete keeps every other binding, in order, and the names unique. */
  lemma DeleteKeepsOthers(st: State, name: string)
    requires NamesUnique(st.vars) && Lookup(st.vars, name).Some?
    ensures var i := Lookup(st.vars, name).value;
      DeleteVar(st, name).st.vars == st.vars[..i] + st.vars[i + 1..]
    ensures NamesUnique(DeleteVar(st, name).st.vars)
  {
    var i := Lookup(st.vars, name).value;
    var vars' := DeleteVar(st, name).st.vars;
    assert forall j :: 0 <= j < |vars'| ==> vars'[j] == (st.vars[..i] + st.vars[i + 1..])[j];
  }

  /**
   * The capacity make_reference leaves as written (eval.c:285-291): the
   * first growth allocates INITIAL_SIZE slots, but a full table is
   * reallocated to max_vars slots, the capacity of the variable table.
   * The last case takes maxRefs as the capacity, which holds only until the
   * first faulty regrowth: after it max_refs is double the old count while
   * the block holds max_vars slots. The exhibit below uses only the first
   * regrowth.
   */
  function RefCapacityAsWritten(numRefs: nat, maxRefs: nat, maxVars: nat): (c: nat)
    ensures maxRefs == 0 || numRefs != maxRefs ==> c == Grown(numRefs, maxRefs)
    ensures maxRefs > 0 && numRefs == maxRefs ==> c == maxVars
  {
    if maxRefs == 0 then INITIAL_SIZE else if numRefs == maxRefs then maxVars else maxRefs
  }

  /**
   * With one variable bound (max_vars is 8) and eight references made, the
   * ninth make_reference keeps eight slots and writes slot 8 out of bounds.
   * With no variable bound it asks realloc for zero slots: realloc may return
   * NULL, reported at eval.c:293-294, or a block with no room for slot 8.
   */
  lemma RefCapacityAsWrittenOverflows()
    ensures RefCapacityAsWritten(8, 8, 0) <= 8
    ensures RefCapacityAsWritten(8, 8, 8) <= 8
    ensures Grown(8, 8) == 16
  {
  }

  /** The intended growth always leaves room for the slot about to be written. */
  lemma GrownHasRoom(n: nat, cap: nat)
    requires n <= cap
    ensures Grown(n, cap) > n
    ensures n < cap ==> Grown(n, cap) == cap
  {
  }

  /**
   * key_equals as written (eval.c:248-249): float_value is a pointer to a
   * float of its own for every reference (make_reference_float, eval.c:301-307),
   * so two float references compare equal only when they are the same reference.
   */
  function KeyEqualsAsWritten(st: State, a: RefId, b: RefId): (r: Result<bool>)
    requires IdIn(st, a) && IdIn(st, b)
    ensures r.Err? <==> st.refs[a].Tag() == st.refs[b].Tag() && !st.refs[a].IsKey()
    ensures st.refs[a].RFloat? && st.refs[b].RFloat? ==> r == Ok(a == b)
  {
    var ra, rb := st.refs[a], st.refs[b];
    if ra.Tag() != rb.Tag() then Ok(false)
    else match ra
      case RFloat(_) => Ok(a == b)
      case RString(s) => Ok(s == rb.s)
      case _ => Err(InvalidKeyType)
  }

  /**
   * A clone of a float key, as written, never equals the key it was cloned
   * from, so a float key stored in a dict by an assignment can never be found
   * again; the intended comparison by value finds it.
   */
  lemma FloatCloneUnequalAsWritten(st: State, k: RefId)
    requires Wf(st) && IdIn(st, k) && st.refs[k].RFloat?
    ensures var o := KeyClone(st, k);
      && o.res.Ok?
      && KeyEqualsAsWritten(o.st, o.res.value, k) == Ok(false)
      && KeyEquals(o.st, o.res.value, k) == Ok(true)
  {
  }
}
