/**
 * The interpreter's value model as plain values: the reference table
 * (ref_table, eval.c:16-18) and the global-variable table (global_vars,
 * eval.c:8-14), and the operations of eval.c that read or extend them.
 * The imperative Session class in session.dfy is proved to compute
 * exactly these functions.
 */
module Values {

  /** RefId (eval.h:6): an index into the reference table. */
  type RefId = int

  /** The Type enumeration of struct Reference (eval.h:15-21). */
  datatype Tag = TFloat | TString | TList | TDict | TEmpty

  /** One DictNode (eval.h:37-40): a key id and a value id. */
  datatype DictCell = DictCell(key: RefId, value: RefId)

  /**
   * A slot of the reference table (struct Reference, eval.h:10-30). A list is
   * the sequence of its ListNode values from the head; a dict the sequence of
   * its DictNodes from the head.
   */
  datatype Reference =
    | REmpty
    | RFloat(f: real)
    | RString(s: string)
    | RList(elems: seq<RefId>)
    | RDict(cells: seq<DictCell>)
  {
    function Tag(): Tag
    {
      match this
      case REmpty => TEmpty
      case RFloat(_) => TFloat
      case RString(_) => TString
      case RList(_) => TList
      case RDict(_) => TDict
    }

    /** Floats and strings are the only values key_clone can copy. */
    predicate IsKey()
    {
      RFloat? || RString?
    }
  }

  /** struct GlobalVariable (eval.c:8-11). */
  datatype Binding = Binding(name: string, ref: RefId)

  /** The failures that error() reports, or that the code leaves as TODO. */
  datatype Error =
    | UndefinedVariable(name: string)
    | TypeMismatch
    | NotSubscriptable
    | IndexOutOfBounds(index: int)
    | KeyNotFound
    | InvalidKeyType
    | NotAssignable

  datatype Option<T> = None | Some(value: T)

  datatype Result<T> = Ok(value: T) | Err(error: Error)

  /** Both tables: the used prefix of ref_table and of global_vars. */
  datatype State = State(refs: seq<Reference>, vars: seq<Binding>)

  /**
   * The result of an operation together with the tables after it. An error
   * does not undo what was done before it, so a failed operation has a state
   * too.
   */
  datatype Outcome<T> = Outcome(st: State, res: Result<T>)

  /** Both tables empty, as before the first make_reference and get_global_variable. */
  const Initial := State([], [])

  predicate IdIn(st: State, r: RefId)
  {
    0 <= r < |st.refs|
  }

  /** A slot is typed and names only ids below n. */
  predicate RefWf(n: int, v: Reference)
  {
    match v
    case REmpty => false
    case RFloat(_) => true
    case RString(_) => true
    case RList(es) => forall i :: 0 <= i < |es| ==> 0 <= es[i] < n
    case RDict(cs) => forall i :: 0 <= i < |cs| ==> 0 <= cs[i].key < n && 0 <= cs[i].value < n
  }

  predicate NamesUnique(vars: seq<Binding>)
  {
    forall i, j :: 0 <= i < j < |vars| ==> vars[i].name != vars[j].name
  }

  /**
   * The tables between two operations: no slot is left EMPTY, every id held by
   * a slot or a variable is in the table, and variable names are unique.
   */
  predicate Wf(st: State)
  {
    && (forall i :: 0 <= i < |st.refs| ==> RefWf(|st.refs|, st.refs[i]))
    && (forall i :: 0 <= i < |st.vars| ==> IdIn(st, st.vars[i].ref))
    && NamesUnique(st.vars)
  }

  /** Floats, strings and lists are never changed once made; a dict stays a dict. */
  predicate Keeps(a: Reference, b: Reference)
  {
    if a.RDict? then b.RDict? else b == a
  }

  /** st' grew from st: the table only grows and no existing slot changes kind. */
  predicate Extends(st: State, st': State)
  {
    && |st.refs| <= |st'.refs|
    && forall i :: 0 <= i < |st.refs| ==> Keeps(st.refs[i], st'.refs[i])
  }

  lemma ExtendsTrans(a: State, b: State, c: State)
    requires Extends(a, b) && Extends(b, c)
    ensures Extends(a, c)
  {
    forall i | 0 <= i < |a.refs| ensures Keeps(a.refs[i], c.refs[i]) {
      assert Keeps(a.refs[i], b.refs[i]) && Keeps(b.refs[i], c.refs[i]);
    }
  }

  lemma RefWfMono(n: int, m: int, v: Reference)
    requires RefWf(n, v) && n <= m
    ensures RefWf(m, v)
  {
  }

  /**
   * make_reference followed by the tagging of make_reference_float, _string,
   * _list or _dict (eval.c:282-329): the new id is the previous count, the
   * table grows by exactly one slot holding v, and nothing else changes.
   */
  function Alloc(st: State, v: Reference): (out: Outcome<RefId>)
    ensures out.res == Ok(|st.refs|)
    ensures |out.st.refs| == |st.refs| + 1 && out.st.refs[|st.refs|] == v
    ensures out.st.refs[..|st.refs|] == st.refs && out.st.vars == st.vars
  {
    Outcome(st.(refs := st.refs + [v]), Ok(|st.refs|))
  }

  /** An allocation of a typed slot over existing ids keeps the tables well formed. */
  lemma AllocWf(st: State, v: Reference)
    requires Wf(st) && RefWf(|st.refs|, v)
    ensures Wf(Alloc(st, v).st) && Extends(st, Alloc(st, v).st)
  {
    var st' := Alloc(st, v).st;
    forall i | 0 <= i < |st'.refs| ensures RefWf(|st'.refs|, st'.refs[i]) {
      if i < |st.refs| {
        assert st'.refs[i] == st.refs[i];
        RefWfMono(|st.refs|, |st'.refs|, st.refs[i]);
      } else {
        RefWfMono(|st.refs|, |st'.refs|, v);
      }
    }
  }

  /** The position of the first binding called name (the scan of eval.c:184-188 and 220-221). */
  function Lookup(vars: seq<Binding>, name: string): (r: Option<nat>)
    ensures r.Some? ==> r.value < |vars| && vars[r.value].name == name
    ensures r.Some? ==> forall j :: 0 <= j < r.value ==> vars[j].name != name
    ensures r.None? <==> forall j :: 0 <= j < |vars| ==> vars[j].name != name
  {
    if |vars| == 0 then None
    else if vars[0].name == name then Some(0)
    else match Lookup(vars[1..], name)
      case None => None
      case Some(k) => Some(k + 1)
  }

  /**
   * get_global_variable (eval.c:183-215): the index of name's binding. A bound
   * name changes nothing; an unbound one fails unless create is set, when a
   * binding to a fresh placeholder float 0 is appended.
   */
  function GetVar(st: State, name: string, create: bool): (out: Outcome<nat>)
    ensures Lookup(st.vars, name).Some? ==> out == Outcome(st, Ok(Lookup(st.vars, name).value))
    ensures Lookup(st.vars, name).None? && !create ==> out == Outcome(st, Err(UndefinedVariable(name)))
    ensures Lookup(st.vars, name).None? && create ==>
      && out.res == Ok(|st.vars|)
      && out.st.vars == st.vars + [Binding(name, |st.refs|)]
      && out.st.refs == st.refs + [RFloat(0.0)]
    ensures out.res.Ok? ==> out.res.value < |out.st.vars| && out.st.vars[out.res.value].name == name
    ensures NamesUnique(st.vars) ==> NamesUnique(out.st.vars)
    ensures Wf(st) ==> Wf(out.st) && Extends(st, out.st)
  {
    match Lookup(st.vars, name)
    case Some(i) => Outcome(st, Ok(i))
    case None =>
      if !create then Outcome(st, Err(UndefinedVariable(name)))
      else
        var placeholder := Alloc(st, RFloat(0.0));
        assert Wf(st) ==> Wf(placeholder.st) && Extends(st, placeholder.st) by {
          if Wf(st) { AllocWf(st, RFloat(0.0)); }
        }
        Outcome(placeholder.st.(vars := st.vars + [Binding(name, placeholder.res.value)]), Ok(|st.vars|))
  }

  /**
   * delete_global_variable (eval.c:217-238) as its comment intends: the binding
   * of name is removed and every later binding slides down by one. An unbound
   * name fails and changes nothing.
   */
  function DeleteVar(st: State, name: string): (out: Outcome<()>)
    ensures out.res.Ok? <==> Lookup(st.vars, name).Some?
    ensures out.res.Err? ==> out == Outcome(st, Err(UndefinedVariable(name)))
    ensures out.res.Ok? ==>
      var i := Lookup(st.vars, name).value;
      && out.st.refs == st.refs
      && |out.st.vars| == |st.vars| - 1
      && (forall j :: 0 <= j < i ==> out.st.vars[j] == st.vars[j])
      && (forall j :: i <= j < |out.st.vars| ==> out.st.vars[j] == st.vars[j + 1])
    ensures NamesUnique(st.vars) ==> NamesUnique(out.st.vars) && Lookup(out.st.vars, name).None?
    ensures Wf(st) ==> Wf(out.st) && Extends(st, out.st)
  {
    match Lookup(st.vars, name)
    case None => Outcome(st, Err(UndefinedVariable(name)))
    case Some(i) =>
      RemoveBinding(st, name, i);
      Outcome(st.(vars := st.vars[..i] + st.vars[i + 1..]), Ok(()))
  }

  /**
   * The tables without the binding at i, which is name's: the earlier
   * bindings stay, the later ones move down one place, unique names stay
   * unique and name is then unbound, and well-formed tables stay well formed.
   */
  lemma RemoveBinding(st: State, name: string, i: nat)
    requires i < |st.vars| && st.vars[i].name == name
    ensures var st' := st.(vars := st.vars[..i] + st.vars[i + 1..]);
      && |st'.vars| == |st.vars| - 1
      && (forall j :: 0 <= j < i ==> st'.vars[j] == st.vars[j])
      && (forall j :: i <= j < |st'.vars| ==> st'.vars[j] == st.vars[j + 1])
      && (NamesUnique(st.vars) ==> NamesUnique(st'.vars) && Lookup(st'.vars, name).None?)
      && (Wf(st) ==> Wf(st') && Extends(st, st'))
  {
    var st' := st.(vars := st.vars[..i] + st.vars[i + 1..]);
    var vs := st'.vars;
    assert forall j :: 0 <= j < |vs| ==> vs[j] == if j < i then st.vars[j] else st.vars[j + 1];
    if NamesUnique(st.vars) {
      assert forall j :: 0 <= j < |vs| ==> vs[j].name != name;
    }
  }

  /**
   * key_equals (eval.c:240-259), comparing float keys by value: slots of
   * different kinds are unequal, floats and strings compare by content, and
   * two lists or two dicts are an error rather than unequal.
   */
  function KeyEquals(st: State, a: RefId, b: RefId): (r: Result<bool>)
    requires IdIn(st, a) && IdIn(st, b)
    requires !(st.refs[a].REmpty? && st.refs[b].REmpty?)
    ensures r.Err? <==> st.refs[a].Tag() == st.refs[b].Tag() && !st.refs[a].IsKey()
    ensures r.Err? ==> r.error == InvalidKeyType
    ensures r == Ok(true) <==> st.refs[a] == st.refs[b] && st.refs[a].IsKey()
  {
    var ra, rb := st.refs[a], st.refs[b];
    if ra.Tag() != rb.Tag() then Ok(false)
    else match ra
      case RFloat(f) => Ok(f == rb.f)
      case RString(s) => Ok(s == rb.s)
      case _ => Err(InvalidKeyType)
  }

  /**
   * key_clone (eval.c:336-347): a float or string key is copied into a fresh
   * slot that equals the original; any other value is an invalid key (the
   * code's TODO) and nothing is allocated.
   */
  function KeyClone(st: State, k: RefId): (out: Outcome<RefId>)
    requires Wf(st) && IdIn(st, k)
    ensures out.res.Ok? <==> st.refs[k].IsKey()
    ensures out.res.Err? ==> out == Outcome(st, Err(InvalidKeyType))
    ensures out.res.Ok? ==>
      && out.res.value == |st.refs| && out.res.value != k
      && out.st.refs == st.refs + [st.refs[k]] && out.st.vars == st.vars
      && KeyEquals(out.st, out.res.value, k) == Ok(true)
    ensures Wf(out.st) && Extends(st, out.st)
  {
    match st.refs[k]
    case RFloat(f) => AllocWf(st, RFloat(f)); Alloc(st, RFloat(f))
    case RString(s) => AllocWf(st, RString(s)); Alloc(st, RString(s))
    case _ => Outcome(st, Err(InvalidKeyType))
  }

  predicate CellsIn(st: State, cells: seq<DictCell>)
  {
    forall i :: 0 <= i < |cells| ==> IdIn(st, cells[i].key) && IdIn(st, cells[i].value)
  }

  /**
   * The dict scan of eval.c:55-59 and 141-145, advancing one cell per step:
   * the position of the first cell whose key equals key, None when no key
   * does, or the error key_equals raised on the way.
   */
  function FindKey(st: State, cells: seq<DictCell>, key: RefId): (r: Result<Option<nat>>)
    requires Wf(st) && IdIn(st, key) && CellsIn(st, cells)
    ensures r.Ok? && r.value.Some? ==>
      var j := r.value.value;
      && j < |cells| && KeyEquals(st, cells[j].key, key) == Ok(true)
      && forall i :: 0 <= i < j ==> KeyEquals(st, cells[i].key, key) == Ok(false)
    ensures r == Ok(None) <==> forall i :: 0 <= i < |cells| ==> KeyEquals(st, cells[i].key, key) == Ok(false)
    ensures r.Err? ==> r.error == InvalidKeyType && !st.refs[key].IsKey()
  {
    if |cells| == 0 then Ok(None)
    else match KeyEquals(st, cells[0].key, key)
      case Err(e) => Err(e)
      case Ok(true) => Ok(Some(0))
      case Ok(false) =>
        match FindKey(st, cells[1..], key)
        case Err(e) => Err(e)
        case Ok(None) => Ok(None)
        case Ok(Some(j)) => Ok(Some(j + 1))
  }

  /**
   * The list walk of eval.c:41-50: index n walks n cells from the head. The
   * loop does not run for n <= 0, so such an index reads the head; walking
   * off the end, or reading the head of an empty list, is out of bounds.
   */
  function ListAt(elems: seq<RefId>, n: int): (r: Result<RefId>)
    ensures r.Ok? <==> 0 < |elems| && n < |elems|
    ensures r.Ok? ==> r.value == elems[if n < 0 then 0 else n]
    ensures r.Err? ==> r.error == IndexOutOfBounds(n)
  {
    if |elems| == 0 || n >= |elems| then Err(IndexOutOfBounds(n))
    else if n <= 0 then Ok(elems[0])
    else Ok(elems[n])
  }

  /** The C conversion (int) of a float: truncation toward zero. */
  function Trunc(f: real): (n: int)
    ensures 0.0 <= f ==> n as real <= f < n as real + 1.0
    ensures f < 0.0 ==> n as real - 1.0 < f <= n as real
  {
    if f >= 0.0 then f.Floor else -((-f).Floor)
  }
}
