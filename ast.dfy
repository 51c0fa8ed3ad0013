/** Sequence helpers shared by the parser's view of literals and the evaluator. */
module Seqs {

  /** The sequence read back to front. */
  function Reverse<T>(s: seq<T>): (r: seq<T>)
    ensures |r| == |s|
    ensures forall k :: 0 <= k < |s| ==> r[k] == s[|s| - 1 - k]
  {
    if |s| == 0 then [] else [s[|s| - 1]] + Reverse(s[..|s| - 1])
  }

  /** Appending at the back of the original puts the new element at the front of the reverse. */
  lemma ReverseSnoc<T>(s: seq<T>, x: T)
    ensures Reverse(s + [x]) == [x] + Reverse(s)
  {
    assert (s + [x])[..|s|] == s;
  }

  /** Reading a sequence back to front twice gives the sequence. */
  lemma ReverseReverse<T>(s: seq<T>)
    ensures Reverse(Reverse(s)) == s
  {
    assert forall k :: 0 <= k < |s| ==> Reverse(Reverse(s))[k] == Reverse(s)[|s| - 1 - k];
  }
}

/**
 * The abstract syntax tree the evaluator consumes (ParseStatement and
 * ParseExpression of global.h). The evaluator never changes it.
 */
module Ast {
  import opened Seqs

  /** EXPR_ADD, EXPR_SUB, EXPR_MULT and EXPR_DIV. */
  datatype ArithOp = Add | Sub | Mul | Div

  datatype Expr =
    | Subscript(base: Expr, index: Expr)
    | Negate(operand: Expr)
    | Ident(name: string)
    | StringLit(text: string)
    | FloatLit(value: real)
      /** The elements in the order of the ParseListNode chain. */
    | ListLit(chain: seq<Expr>)
      /** The entries in the order of the ParseDictNode chain. */
    | DictLit(items: seq<DictItem>)
    | Assign(target: Expr, rhs: Expr)
    | Arith(op: ArithOp, lhs: Expr, rhs: Expr)

  datatype DictItem = DictItem(key: Expr, value: Expr)

  /** STMT_DEL names a variable; STMT_EXPR holds an expression. */
  datatype Stmt = Del(name: string) | ExprStmt(expr: Expr)

  /** A measure for the evaluator's recursion: every sub-expression is smaller than its parent. */
  function Size(e: Expr): (n: nat)
    ensures n >= 1
  {
    match e
    case Subscript(b, i) => 1 + Size(b) + Size(i)
    case Negate(x) => 1 + Size(x)
    case Ident(_) => 1
    case StringLit(_) => 1
    case FloatLit(_) => 1
    case ListLit(chain) => 1 + ChainSize(chain)
    case DictLit(items) => 1 + ItemsSize(items)
    case Assign(t, r) => 1 + Size(t) + Size(r)
    case Arith(_, l, r) => 1 + Size(l) + Size(r)
  }

  function ChainSize(chain: seq<Expr>): nat
  {
    if chain == [] then 0 else 1 + Size(chain[0]) + ChainSize(chain[1..])
  }

  function ItemSize(item: DictItem): nat
  {
    Size(item.key) + Size(item.value)
  }

  function ItemsSize(items: seq<DictItem>): nat
  {
    if items == [] then 0 else 1 + ItemSize(items[0]) + ItemsSize(items[1..])
  }

  /**
   * read_list_literal and read_dict_literal prepend every element they read
   * to the chain, so the chain holds the source elements back to front.
   */
  function ParsedChain<T>(source: seq<T>): seq<T>
  {
    Reverse(source)
  }

  /** The list literal the parser produces for the source elements, in source order. */
  function ListLiteral(source: seq<Expr>): Expr
  {
    ListLit(ParsedChain(source))
  }

  /** The dict literal the parser produces for the source entries, in source order. */
  function DictLiteral(source: seq<DictItem>): Expr
  {
    DictLit(ParsedChain(source))
  }
}
