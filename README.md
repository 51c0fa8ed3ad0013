# subpython evaluator and pool allocator in Dafny

subpython is a small interpreter for a subset of Python. It has float,
string, list and dict values, global variables, `del`, subscripts and
four arithmetic operators. Below the parser sit two cores, and this
project models both.

**The evaluator (eval.c).** Every value lives in a reference table
(`ref_table`), and expressions produce the ids of table slots. Global
names live in a variable table (`global_vars`) that maps each name to an
id. Evaluating an expression can grow the reference table and can bind
or overwrite variables.

**The pool (myalloc.c).** This is a bump-pointer allocator over one byte
arena. Each chunk starts with an eight-byte `PoolHeader` (`obj_size`,
then `ref`). `memdump` walks the chunks by their headers.

The project has two layers:

- **Specification functions.** `Values` and `Semantics` define the
  evaluator as pure functions over `State(refs, vars)`. Each returns an
  `Outcome`: the new state and a `Result`. Every error the C code reports
  with `error()`, or leaves as a `//TODO: error`, is an `Err` result here.
- **Imperative classes.** `Interp.Session` is the evaluator the way
  eval.c writes it. It keeps the two tables in arrays, with counts and
  capacities. Both tables start at INITIAL_SIZE and double when full; the
  reference table follows the intended `max_refs` rule rather than the
  code as written (see Findings, eval.c:290). Every evaluator method is
  proved against the specification functions: its `ensures` equates the
  new state and the result with the function applied to the old state.
  `Pool.Pool` is the arena as an `array<byte>` with a cursor. Its methods
  state the new bytes, cursor and list of chunks, and its dump equals the
  functional walk `Pool.Walk`.

`Properties` proves what the interpreter promises its user. Examples: an
assignment followed by a read gives back the assigned value, and a `del`
leaves the name unbound. `Findings` covers three places where the C code
does something it evidently does not intend.

The model follows the code's intent where the code is unfinished, and
each such place is listed here:

- **Reference table growth** (eval.c:290). A full table is reallocated
  to double `max_refs` slots, not to `max_vars` slots
  (`Interp.Session.MakeReference`, `Interp.Grown`).
- **Dict scans** (eval.c:55-59 and 141-145). The scans never advance to
  the next cell, so a mismatch on the first cell loops forever. The model
  steps along the cells (`Values.FindKey`, `Interp.Session.ScanDict`).
- **Literal loops** (eval.c:83-86 and 92-96). These loops never advance
  either. The model walks the chain from its head (`Semantics.EvalElems`,
  `Semantics.EvalItems`, `Interp.Session.EvalChain`,
  `Interp.Session.EvalEntries`).
- **Switch fall-throughs.** `STMT_DEL` falls into `STMT_EXPR`
  (eval.c:24-29), a failed subscript read falls into `EXPR_NEGATE`
  (eval.c:66-69), and a failed subscript lvalue falls into `EXPR_IDENT`
  (eval.c:156-160). The model ends each case on its own. A subscript read
  of a value that is neither a list nor a dict is `NotSubscriptable`.
- **The `//TODO: error` branches** become `Err` results:
  - a list index past the end is `IndexOutOfBounds` (eval.c:45-47);
  - a missing dict key on a read is `KeyNotFound` (eval.c:61-63);
  - a subscript lvalue whose base is not a dict is `NotAssignable`
    (eval.c:157);
  - eval_expect_float on a non-float is `TypeMismatch` (eval.c:176-178);
  - key_clone of a list or dict is `InvalidKeyType` (eval.c:344-346).
- **Assignment order** (eval.c:99-104). The C code resolves the target's
  slot first and then evaluates the right-hand side. If the right-hand
  side grows the table that holds the slot, the slot pointer dangles. The
  model evaluates the right-hand side, then resolves the target, then
  stores, as Python does. One visible difference: in C, `x = x` with x
  unbound binds x to the placeholder 0.0, because the target's create
  branch runs before the right-hand side is read. In the model it fails
  with `UndefinedVariable` and changes nothing (Properties.SelfAssignUnbound).
- **Dict keys on assignment.** key_equals compares float keys by value,
  not by pointer, and a new dict cell holds a fresh clone of the key. See
  Findings.
- **Deleting a variable** slides the whole variable table down one place,
  as the comment at eval.c:222 asks. See Findings.

## Model

| member | source | states |
|---|---|---|
| Seqs.Reverse | eval.c:83-87 | alloc_list_node prepends, so the cells read back to front: same length, element k is element n-1-k of the input |
| Seqs.ReverseSnoc | eval.c:83-86 | prepending each new element keeps the list equal to the reverse of the elements seen so far |
| Seqs.ReverseReverse | eval.c:80-88 | reading back to front twice gives the sequence, so the parser's and the evaluator's reversals cancel |
| Values.Alloc | eval.c:282-299 | a new reference gets id num_refs (the old table length); the table grows by exactly that slot; every earlier slot and every binding are unchanged |
| Values.AllocWf | eval.c:282-299 | appending a value whose ids point into the table keeps the table well formed and extends the old state |
| Values.ExtendsTrans | eval.c:16-18 | the extends order (slots only added, list and dict slots only mutated in place) is transitive |
| Values.RefWfMono | eval.c:16-18 | a value whose ids point into a table still does so once the table grows |
| Values.Lookup | eval.c:184-188 | the index of the first binding with that name, or None exactly when no binding has that name |
| Values.GetVar | eval.c:183-215 | a bound name gives its index and changes nothing; an unbound name is UndefinedVariable without create, and with create is bound to a fresh placeholder float 0; names stay unique |
| Values.DeleteVar | eval.c:217-238 | succeeds iff the name is bound; on success every other binding is kept in order; an unbound name is UndefinedVariable and changes nothing; afterwards the name is unbound |
| Values.RemoveBinding | eval.c:222-230 | removing the binding at name's index keeps the earlier bindings, moves each later one down one place, keeps names unique and leaves name unbound, and keeps the tables well formed |
| Values.KeyEquals | eval.c:240-259 | values of different kinds are unequal; two lists or two dicts are InvalidKeyType; Ok(true) exactly when both are the same float or the same string |
| Values.KeyClone | eval.c:336-347 | a float or string key is copied into one fresh slot of the same value; a list or dict key is InvalidKeyType and changes nothing |
| Values.FindKey | eval.c:55-59 | the first cell whose key equals the searched key; None exactly when every key compares unequal; an error only for a list or dict key |
| Values.ListAt | eval.c:41-50 | in bounds iff the list is non-empty and n < its length, and then the element at max(n, 0); otherwise IndexOutOfBounds(n) |
| Values.Trunc | eval.c:40 | the C cast `(int)` of a float: truncation toward zero |
| Semantics.Store | eval.c:102 | `*lval = v`: only the slot's binding or dict cell changes, to v; every other slot is unchanged and the state stays well formed |
| Semantics.MakeRef | eval.c:301-329 | the make_reference_* functions: exactly Alloc, and the state stays well formed and extends the old one |
| Semantics.Eval | eval.c:33-129 | evaluating any expression keeps the state well formed, only extends it, and an Ok result names a slot of the new table |
| Semantics.EvalElems | eval.c:80-86 | the elements in chain order; on success one id per element, each in the table |
| Semantics.EvalItems | eval.c:89-96 | the entries in chain order; on success one cell per entry, its ids in the table |
| Semantics.EvalEntry | eval.c:92-95 | one entry, key then value: the state stays well formed and only extends, and an Ok cell's ids are in the table |
| Semantics.PrefixedElems | eval.c:83-86 | evaluating the head element and then the rest is the same as evaluating the whole chain with the head's id in front |
| Semantics.PrefixedItems | eval.c:92-96 | the same for dict entries |
| Semantics.ExpectFloat | eval.c:173-181 | reading an operand as a float keeps the state well formed and only extends it |
| Semantics.DictGet | eval.c:51-65 | Ok exactly when the scan finds a cell, and then the value of the first cell whose key equals k; only float and string keys find anything; KeyNotFound exactly when no cell's key equals k |
| Semantics.EvalSubscript | eval.c:37-68 | a subscript read keeps the state well formed, only extends it, and an Ok result names a slot |
| Semantics.Index | eval.c:38-68 | the dispatch on the evaluated base keeps the state well formed, only extends it, and an Ok result names a slot |
| Semantics.IndexList | eval.c:39-50 | a list read keeps the state well formed, only extends it, and an Ok result names a slot |
| Semantics.IndexDict | eval.c:51-65 | a dict read keeps the state well formed, only extends it, and an Ok result names a slot |
| Semantics.DictSlot | eval.c:137-155 | Ok iff the key is a float or string; a present key gives its cell's slot and changes nothing; a missing key puts one new cell (a clone of the key, a placeholder float 0) at the head of the dict and gives its slot; otherwise InvalidKeyType and nothing changes |
| Semantics.EvalLval | eval.c:131-171 | resolving an lvalue keeps the state well formed, only extends it, and an Ok slot exists in the new state |
| Semantics.EvalLvalSubscript | eval.c:135-158 | a subscript lvalue keeps the state well formed, only extends it, and an Ok slot exists in the new state |
| Semantics.LvalIndex | eval.c:137-157 | resolving a key in the base keeps the state well formed, only extends it, and an Ok slot exists in the new state |
| Semantics.EvalAssign | eval.c:99-104 | an assignment keeps the state well formed, only extends it, and its Ok slot exists in the new state |
| Semantics.AssignInto | eval.c:100-102 | storing into the resolved target keeps the state well formed, only extends it, and the Ok slot exists |
| Semantics.EvalStmt | eval.c:22-31 | a statement keeps the state well formed and only extends it |
| Semantics.ArithWith | eval.c:105-125 | the right operand and the result of an arithmetic expression keep the state well formed, only extend it, and an Ok result names a slot |
| Interp.Grown | eval.c:191-197 | the capacity after an append: never zero, never below the old capacity, and at most double it |
| Interp.Realloc | eval.c:194-197 | realloc: a fresh array of the asked capacity, with the first n entries copied |
| Interp.WalkList | eval.c:41-50 | the list walk node by node equals ListAt |
| Interp.SlideDown | eval.c:222-230 | the entries after position i move down one place each, and the entries from n - 1 on keep their values |
| Interp.Session.constructor | eval.c:16-18 | an empty reference table and an empty variable table, with no capacity |
| Interp.Session.Deref | eval.c:261-263 | deref gives the value in the id's slot |
| Interp.Session.MakeReference | eval.c:282-299 | returns the old num_refs, allocates INITIAL_SIZE slots first and doubles a full table, and appends one EMPTY slot |
| Interp.Session.SetRef | eval.c:301-329 | writing a slot changes that slot only |
| Interp.Session.MakeTagged | eval.c:301-329 | make_reference and then the slot's value: the new table is Alloc of the old one |
| Interp.Session.MakeReferenceFloat | eval.c:301-308 | Alloc of a float |
| Interp.Session.MakeReferenceString | eval.c:310-315 | Alloc of a string |
| Interp.Session.MakeReferenceList | eval.c:317-322 | Alloc of a list |
| Interp.Session.MakeReferenceDict | eval.c:324-329 | Alloc of a dict |
| Interp.Session.FindVariable | eval.c:184-188 | the scan of global_vars gives Lookup |
| Interp.Session.AppendVariable | eval.c:190-211 | the create branch binds the name, at the end of the table, to a fresh placeholder float 0 |
| Interp.Session.GrowVariables | eval.c:191-203 | malloc when unallocated, double a full table, and the bindings are unchanged |
| Interp.Session.SetVariable | eval.c:205-210 | the free slot after the last binding gets the name and id |
| Interp.Session.GetGlobalVariable | eval.c:183-215 | the new state and result are GetVar of the old state |
| Interp.Session.RemoveVariable | eval.c:222-230 | the bindings after the deleted one slide down one place; the count drops by one |
| Interp.Session.DeleteGlobalVariable | eval.c:217-238 | the new state and result are DeleteVar of the old state |
| Interp.Session.KeyEquality | eval.c:240-259 | key_equals on the table gives KeyEquals and changes nothing |
| Interp.Session.KeyClone | eval.c:336-347 | the new state and result are KeyClone of the old state |
| Interp.Session.ScanDict | eval.c:55-59 | the scan loop gives FindKey and changes nothing |
| Interp.Session.ReadSlot | eval.c:102 | `*lval` reads the slot's id |
| Interp.Session.StoreSlot | eval.c:102 | `*lval = v`: the new state is Store of the old one |
| Interp.Session.EvalExpectFloat | eval.c:173-181 | the new state and result are ExpectFloat of the old state |
| Interp.Session.EvalExpr | eval.c:33-129 | the new state and result are Eval of the old state |
| Interp.Session.Negation | eval.c:69-72 | the new state and result are Eval of the negation |
| Interp.Session.ReadVariable | eval.c:73-75 | the new state and result are Eval of the identifier |
| Interp.Session.Assignment | eval.c:99-104 | the new state and result are Eval of the assignment |
| Interp.Session.ReadSubscript | eval.c:37-68 | the new state and result are EvalSubscript of the old state |
| Interp.Session.ReadItem | eval.c:38-68 | the new state and result are Index of the old state |
| Interp.Session.ReadListItem | eval.c:39-50 | the new state and result are IndexList of the old state |
| Interp.Session.ReadDictItem | eval.c:51-65 | the new state and result are IndexDict of the old state |
| Interp.Session.DictLookup | eval.c:55-64 | the dict search gives DictGet and changes nothing |
| Interp.Session.BuildList | eval.c:80-88 | the new state and result are Eval of a list literal |
| Interp.Session.EvalChain | eval.c:83-86 | the loop gives EvalElems, with the ids collected back to front |
| Interp.Session.BuildDict | eval.c:89-98 | the new state and result are Eval of a dict literal |
| Interp.Session.EvalEntries | eval.c:92-96 | the loop gives EvalItems, with the cells collected back to front |
| Interp.Session.EvalDictEntry | eval.c:93-95 | the new state and result are EvalEntry of the old state |
| Interp.Session.Arithmetic | eval.c:105-125 | the new state and result are Eval of the arithmetic expression |
| Interp.Session.ArithmeticWith | eval.c:107-124 | the new state and result are ArithWith of the old state |
| Interp.Session.AssignTo | eval.c:99-104 | the new state and result are EvalAssign of the old state |
| Interp.Session.AssignValue | eval.c:100-102 | the new state and result are AssignInto of the old state |
| Interp.Session.EvalExprLval | eval.c:131-171 | the new state and result are EvalLval of the old state |
| Interp.Session.ResolveSubscript | eval.c:135-158 | the new state and result are EvalLvalSubscript of the old state |
| Interp.Session.ResolveItem | eval.c:137-157 | the new state and result are LvalIndex of the old state |
| Interp.Session.ResolveDictItem | eval.c:138-155 | the new state and result are LvalIndex of the old state, for a dict |
| Interp.Session.ResolveDictSlot | eval.c:139-155 | the new state and result are DictSlot of the old state |
| Interp.Session.EvalStmt | eval.c:22-31 | the new state and result are EvalStmt of the old state |
| Pool.Encode32 | myalloc.c:29-30 | a C int stored as four bytes |
| Pool.Decode32 | myalloc.c:99-103 | four bytes read back as a C int, always in range |
| Pool.DecodeEncode32 | myalloc.c:76-78 | a stored int reads back unchanged |
| Pool.EncodeDecode32 | myalloc.c:99-103 | every four bytes are the encoding of the int they read as, so the encoding is a bijection |
| Pool.EncodeHeader | myalloc.c:27-31 | a PoolHeader is eight bytes |
| Pool.DecodeHeader | myalloc.c:99 | the header read at an offset has both fields in C int range |
| Pool.DecodeEncodeHeader | myalloc.c:76-78 | a header written at an offset reads back as the same header |
| Pool.Report | myalloc.c:101-103 | one dump line per chunk |
| Pool.ReportLines | myalloc.c:101-103 | the lines come in chunk order: line i gives chunk i's size less the header and its ref |
| Pool.Walk | myalloc.c:93-111 | the header walk from a cursor: nothing at or past the end, and never more lines than bytes left to walk |
| Pool.LaidOutEnd | myalloc.c:84 | the chunks' recorded sizes add up to the cursor |
| Pool.WalkLaidOut | myalloc.c:93-111 | walking the headers of the arena reports every chunk once, in order, and nothing else |
| Pool.HeaderAtOffset | myalloc.c:93-111 | every chunk's header sits at its offset and a chunk ends where the next begins |
| Pool.ChunksDisjoint | myalloc.c:84 | an earlier chunk ends at or before a later one begins |
| Pool.FootprintSnoc | myalloc.c:84 | appending a chunk adds its size to the footprint |
| Pool.FootprintGrows | myalloc.c:84 | the footprint of a prefix grows with the prefix |
| Pool.LaidOutFrame | myalloc.c:93-111 | the chunk layout depends only on the bytes below the cursor |
| Pool.LaidOutSnoc | myalloc.c:75-84 | a header written at the cursor extends the layout by one chunk |
| Pool.LaidOutStep | myalloc.c:97-109 | one step of the walk: the first chunk's header, and the layout after it |
| Pool.WalkStep | myalloc.c:97-109 | a header of positive size below the end is reported, and the walk goes on past its chunk |
| Pool.AppendChunk | myalloc.c:75-84 | writing a header at the cursor and nothing below it extends the layout |
| Pool.Pool.Init | myalloc.c:50-65 | a fresh arena of the given size, the cursor at its start, no chunks |
| Pool.Pool.InUse | myalloc.c:87 | freeptr - mem: the sum of the chunk sizes, within the arena |
| Pool.Pool.Store32 | myalloc.c:77-78 | a C int store changes exactly its four bytes |
| Pool.Pool.WriteHeader | myalloc.c:76-78 | the two field stores change exactly the eight header bytes |
| Pool.Pool.Alloc | myalloc.c:72-91 | succeeds iff cursor + 8 + size < arena size, returning cursor + 8 and moving the cursor past the chunk, with exactly the header bytes written; on failure nothing changes |
| Pool.Pool.AppendAt | myalloc.c:75-85 | the successful branch: header at the cursor, cursor past the chunk, one chunk appended |
| Pool.Pool.HeaderAt | myalloc.c:99 | the header the arena holds at an offset |
| Pool.Pool.MemDump | myalloc.c:93-111 | the loop's lines are Walk of the arena, and they report every chunk in allocation order |
| Properties.AssignThenReadGlobal | eval.c:99-104 | `x = r` succeeds iff r does; reading x right after gives the id that the assignment produced |
| Properties.DeleteThenRead | eval.c:217-238 | `del x` succeeds iff x is bound; afterwards reading x is UndefinedVariable |
| Properties.SelfAssignUnbound | eval.c:99-104 | `x = x` on an unbound x is UndefinedVariable and leaves the state as it was (the model reads the right-hand side first) |
| Properties.FindKeyAgree | eval.c:55-59 | two states that agree on a dict's keys agree on every search of it |
| Properties.StoreThenGet | eval.c:139-165 | storing v into the value of the cell found for k makes d[k] read v |
| Properties.FindKeyAfterStore | eval.c:55-59 | a store into a dict cell leaves every search of that dict with the result it had |
| Properties.StoreKeepsKeys | eval.c:102 | a store into a dict cell keeps every key of that dict |
| Properties.FindKeySameKeys | eval.c:55-59 | the scan looks only at keys, so cells with the same keys give the same result |
| Properties.DictInsertThenRead | eval.c:137-167 | for a float or string key, d[k] = v is followed by d[k] reading v with the same key id k, whether or not k was present |
| Properties.FindKeyLater | eval.c:55-59 | in a later state, a key id holding the same float or string as k finds the same cell as k |
| Properties.DictInsertThenReadEqualKey | eval.c:51-65 | after d[k] = v, a later read of the unchanged dict with any key id holding k's value gives v |
| Properties.LvalSubscriptDict | eval.c:135-155 | name[key] as an lvalue, once name gave the dict d and key its id, is the dict search for that id |
| Properties.AssignStored | eval.c:99-104 | name[key] = rhs, once rhs gave x and the target resolved to a slot, stores x there and returns x |
| Properties.EvalAssignOk | eval.c:99-104 | a successful assignment expression gives the id now held by its target slot |
| Properties.ReadSubscriptDict | eval.c:51-60 | name[key] as an rvalue on a dict, once key gave its id, is the dict read of that id |
| Properties.DictSlotKeepsVars | eval.c:135-155 | resolving a dict slot, and storing into it, changes no variable binding |
| Properties.EvalKeyLiteral | eval.c:76-79 | a float or string literal makes one fresh slot holding its value |
| Properties.EvalBoundDict | eval.c:73-75 | a name bound to a dict reads as that dict's id and changes nothing |
| Properties.BoundToDictKept | eval.c:73-75 | a later state with the same bindings, where no slot changed kind, binds the name to the same dict |
| Properties.StoredThenRead | eval.c:37-65 | once x is stored under a literal key in a dict variable, reading name[key] with the key evaluated afresh gives x |
| Properties.SubscriptAssignThenRead | eval.c:37-65 | `name[key] = rhs` with a float or string literal key gives rhs's value, and a following `name[key]`, whose key is a fresh reference, reads that value back |
| Properties.CloneStaysEqual | eval.c:336-347 | a key's clone equals the key, in any later state |
| Properties.FloatChain | eval.c:80-86 | a chain of float literals makes one fresh float per element, in chain order |
| Properties.ConsFreshFloats | eval.c:83-86 | one fresh float in front of a run of fresh floats is a longer run of fresh floats |
| Properties.EvalElemsCons | eval.c:83-86 | a chain's ids are the head's id in front of the rest's |
| Properties.ListLiteralInSourceOrder | eval.c:80-88 | for float literals only: `[f0, ..., fn]` as the parser chains it gives a list whose k-th element is fk |
| Properties.ChainListOrder | eval.c:80-88 | a chain of float literals gives a list holding them back to front |
| Properties.FreshFloatsReversed | eval.c:84-87 | a new list of fresh float ids collected back to front holds the floats back to front |
| Properties.ReversedFloatLits | eval.c:80-88 | the parser's chain of float literals holds the values back to front |
| Properties.EvalListLit | eval.c:80-88 | a list literal makes one fresh list of its elements' ids, back to front |
| Properties.EvalDictLit | eval.c:89-97 | a dict literal makes one fresh dict of its entries' cells, back to front |
| Properties.EvalDictLiteral | eval.c:89-97 | the dict literal the parser builds for source entries makes one fresh dict of the chain's evaluated cells, back to front |
| Properties.EvalFloatEntry | eval.c:93-95 | an entry of two float literals makes the key's float, then the value's, and one cell naming them |
| Properties.FloatItemsChain | eval.c:92-96 | a chain of float-literal entries makes two fresh floats per entry, key before value, in chain order |
| Properties.ConsFreshPairs | eval.c:92-96 | one fresh key and value in front of a run of fresh pairs is a longer run |
| Properties.EvalItemsCons | eval.c:92-96 | a chain's cells are the head entry's cell in front of the rest's |
| Properties.ReversedFloatItems | eval.c:89-97 | the parser's chain of float-literal entries holds the pairs back to front |
| Properties.FreshPairsReversed | eval.c:93-97 | a new dict of fresh cells collected back to front holds the pairs back to front |
| Properties.ChainDictOrder | eval.c:89-97 | a chain of float-literal entries gives a dict holding them back to front |
| Properties.DictLiteralInSourceOrder | eval.c:89-97 | for float literals only: `{k0: v0, ..., kn: vn}` as the parser chains it gives a dict whose k-th cell holds kk and vk |
| Properties.EvalFloatLit | eval.c:78-79 | a float literal makes one fresh float, and as an operand it yields its value |
| Properties.ListIndexLiteral | eval.c:39-50 | indexing a list with a float literal reads the element at the truncated index or is IndexOutOfBounds |
| Properties.EvalArith | eval.c:105-125 | arithmetic on two floats makes one fresh float holding the result |
| Properties.ArithLiterals | eval.c:105-125 | `a op b` on literals makes a, b and then the result, in that order |
| Properties.EvalNegate | eval.c:69-72 | negating an operand that reads as the float f makes one fresh float holding -f |
| Properties.NegateFloat | eval.c:69-72 | negating a float literal makes the float and then one fresh float holding its negation |
| Properties.ArithNonFloatLeft | eval.c:105-125 | a left operand that is not a float is TypeMismatch, and the right operand is never evaluated |
| Properties.ArithNonFloatRight | eval.c:105-125 | a float left operand and a right operand that is not a float is TypeMismatch, after both were evaluated |
| Properties.ArithStringLeft | eval.c:105-125 | a string left operand is TypeMismatch, right after the string was made |
| Properties.NegateString | eval.c:69-72 | negating a string is TypeMismatch, after the string was made |
| Properties.CompositeKeyRejected | eval.c:137-155 | a list or dict key in a subscript lvalue is InvalidKeyType and changes nothing |
| Properties.MissingKeyNotFound | eval.c:51-65 | a key whose kind no cell's key has is KeyNotFound |
| Findings.DeleteAsWritten | eval.c:222-229 | delete as written: the count drops by one |
| Findings.DeleteAsWrittenLosesBinding | eval.c:222-229 | deleting a from a, b, c as written leaves b twice; the intended delete leaves b, c |
| Findings.DeleteKeepsOthers | eval.c:217-238 | the intended delete keeps every other binding in order, and the names unique |
| Findings.RefCapacityAsWritten | eval.c:285-291 | make_reference's capacity as written: the intended rule except when a full table is regrown, where it is max_vars |
| Findings.RefCapacityAsWrittenOverflows | eval.c:285-291 | as written, a full table of 8 is reallocated to max_vars slots, possibly 0 or 8, before slot 8 is written |
| Findings.GrownHasRoom | eval.c:285-291 | the intended growth always leaves room for the slot about to be written |
| Findings.KeyEqualsAsWritten | eval.c:240-259 | key_equals as written: two floats are equal only when they are the same reference |
| Findings.FloatCloneUnequalAsWritten | eval.c:248-249 | as written a float key's clone never equals the key; compared by value it does |

## Left out

- Floats are Dafny `real`s, not IEEE single precision. Rounding, NaN and
  infinities are not modelled, and division by zero gives 0.0 rather
  than an infinity.
- Values.Trunc: truncates any real; the C cast of an out-of-range float
  is undefined and is not modelled.
- Integer widths in the evaluator (`int` counts and capacities, `RefId`)
  are unbounded; the variable count and reference count never wrap.
- A failed malloc or realloc (the NULL checks, and the `abort()` of
  init_myalloc) is not modelled: allocation always succeeds.
- Output is left out: `error()` and its messages (global.c is not part of
  this model; its calls become `Err` results), the `fprintf` messages of
  myalloc, and memdump's printing of each chunk's data bytes.
- The parser (parse.c, lex.c) is not part of this model. Expressions and
  statements are an `Ast` datatype; `Ast.ListLiteral` and
  `Ast.DictLiteral` build the chain in the order the parser links it.
- print.c, repl.c and alloc.c/.h are not part of this model, so neither
  is the garbage collector's `occupied` marking.
- An assignment target that is a literal, a negation or an arithmetic
  expression reaches `UNREACHABLE()` in the C code (eval.c:168-169); the
  model gives NotAssignable. A subscript of a list or of any other non-dict
  value is a different case: it reaches the `//TODO: error` at eval.c:157
  and falls through into `EXPR_IDENT` (eval.c:159-160). The model cuts
  that fall-through, as the divergence list above says, and gives
  NotAssignable there too.
- Values.KeyEquals: requires that the two slots are not both EMPTY. An
  EMPTY slot is never a dict key or a value that reaches key_equals.
- Semantics.EvalEntry, Semantics.DictSlot: C leaves the order in which a
  call's arguments are evaluated unspecified, and the model picks left to
  right. A dict-literal entry evaluates its key before its value (the
  `alloc_dict_node` call at eval.c:93-95), and a missing-key lvalue makes
  the key's clone before the placeholder float 0 (eval.c:148-151), so the
  clone has the lower id. With x unbound, `{x = 1: x}` succeeds in the
  model but is UndefinedVariable if a compiler evaluates the value first.
  Interp.Session.EvalDictEntry and Interp.Session.ResolveDictSlot follow
  the same order.
- Dict literals store their keys as evaluated: they are neither checked
  for kind nor cloned, as at eval.c:92-96.
- The evaluator does not allocate its values in the pool: in this
  repository the two cores are separate, and so are the models.
- Pool.Pool.Alloc: requires 0 <= size <= INT_MAX - 8 and a ref within C
  int range, so the model does not cover negative sizes or sizes whose
  chunk does not fit an int. Such sizes break the chunk layout and the
  property that the cursor only moves forward. In C, `sizeof(struct
  PoolHeader) + size` (myalloc.c:73) is computed in size_t and converted
  back to int, which is implementation-defined above INT_MAX. A size from
  -8 to -1, when there is room, writes a header whose obj_size (0 to 7) is
  smaller than the header, and the cursor moves by that much. A size below
  -8, with enough bytes below the cursor, moves the cursor backwards.
- Pool.Pool.Init: requires memorySize <= INT_MAX, since MEMORY_SIZE is
  a C int.
- Pool.Walk: stops when fewer than eight bytes are left before the end of
  the arena, where memdump would read past it; under `Pool.Pool.Valid()`
  this cannot happen. It also stops at a header whose size is not
  positive, where memdump's loop would not advance and never ends. Myalloc writes such a header for
  a size of -8 (obj_size 0); the requires of Pool.Pool.Alloc exclude it, so
  every header the model writes has a positive size.
- Pool: headers use little-endian two's-complement byte order. The C
  code's order depends on the machine.
- close_myalloc (freeing the arena) is not modelled.

## Findings

| source | as written | input that shows it | evidently intended | confidence | as-written member | corrected member |
|---|---|---|---|---|---|---|
| eval.c:222-229 | delete_global_variable copies only the binding after the deleted one down, then drops the last | bindings a, b, c and `del a`: leaves b, b and loses c | every later binding slides down one place, as the comment at eval.c:222 says | not executed | Findings.DeleteAsWrittenLosesBinding | Findings.DeleteKeepsOthers |
| eval.c:290 | a full reference table is reallocated to `max_vars` slots | one variable bound and eight references made in all: max_vars is 8, so the ninth make_reference keeps 8 slots and writes slot 8 out of bounds (with no variable bound, realloc asks for 0 bytes and either returns NULL, reported as "Allocation failed!" at eval.c:293-294, or a block too small for slot 8) | double to `max_refs * 2` | not executed | Findings.RefCapacityAsWrittenOverflows | Findings.GrownHasRoom |
| eval.c:248-249 | float keys are compared by their `float_value` pointers, and each reference has its own float | `d[1] = 5` followed by `d[1]`: the stored key is a clone, so the read never finds it | compare the floats the pointers point to | not executed | Findings.FloatCloneUnequalAsWritten | Properties.SubscriptAssignThenRead |
