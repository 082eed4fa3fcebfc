/** The syntax-tree pieces the cross-to-inner join rewrite reads and writes, and the
    stand-ins for the analyser helpers it consumes. Only `TableJoin` is changed in place;
    everything else is an immutable value. */
module Ast {

  datatype Option<+T> = None | Some(value: T)

  /** The three error codes the rewrite raises. */
  datatype ErrorCode = LOGICAL_ERROR | NOT_IMPLEMENTED | INCORRECT_QUERY

  /** A call that either returns a value or throws an exception with an error code. */
  datatype Result<+T> = Ok(value: T) | Thrown(code: ErrorCode)

  /** Expression nodes: a function call, an identifier with an optional table qualifier,
      a literal, and an opaque subquery. */
  datatype Expr =
    | Function(name: string, arguments: ArgumentList)
    | Identifier(qualifier: Option<string>, name: string)
    | Literal(text: string)
    | Subquery(text: string)

  /** The argument list of a function call; the node may be absent. */
  datatype ArgumentList = NoArgumentList | ExpressionList(children: seq<Expr>)

  /** An identifier written without a qualifier (a single name part). */
  predicate IsShortIdentifier(e: Expr) {
    e.Identifier? && e.qualifier.None?
  }

  /** Alias table: short name to the expression it stands for; only membership is consulted. */
  type Aliases = map<string, Expr>

  datatype JoinKind = Inner | Left | Right | Full | Cross | Comma | Paste

  datatype JoinStrictness = Unspecified | RightAny | Any | All | Asof | Semi | Anti

  predicate IsCrossOrComma(k: JoinKind) {
    k == Cross || k == Comma
  }

  /** The values of a join specification's fields at one moment. */
  datatype JoinState = JoinState(
    kind: JoinKind,
    strictness: JoinStrictness,
    onExpression: Option<Expr>,
    usingList: Option<seq<Expr>>,
    children: seq<Expr>)

  /** A join specification of one FROM entry; the rewrite updates its fields in place. */
  class TableJoin {
    var kind: JoinKind
    var strictness: JoinStrictness
    var onExpression: Option<Expr>
    var usingList: Option<seq<Expr>>
    var children: seq<Expr>

    function State(): JoinState
      reads this
    {
      JoinState(kind, strictness, onExpression, usingList, children)
    }
  }

  /** The table part of a FROM entry: a named table, or a node of some other shape. */
  datatype TableExpressionNode =
    | TableExpression(database: string, table: string, alias: string)
    | OtherTableExpression

  /** One FROM entry: its join specification, table expression and ARRAY JOIN, each optional. */
  datatype TableElement = TableElement(
    tableJoin: TableJoin?,
    tableExpression: Option<TableExpressionNode>,
    arrayJoin: Option<Expr>)

  /** A child of the FROM list: normally a table element, but the list is a generic node list. */
  datatype TablesChild = Element(element: TableElement) | NotAnElement

  datatype TablesNode = TablesInSelectQuery(children: seq<TablesChild>) | OtherTablesNode

  datatype SelectQuery = SelectQuery(tables: Option<TablesNode>, where: Option<Expr>)

  /** Database, table and alias of a table reference. */
  datatype TableId = TableId(database: string, table: string, alias: string)

  /** A table as resolved by the analyser, with its column names. */
  datatype TableWithColumns = TableWithColumns(table: TableId, columns: seq<string>)

  /** The FROM list, or nothing when the query has no list of table elements. */
  function ChildrenOf(select: SelectQuery): seq<TablesChild> {
    if select.tables.Some? && select.tables.value.TablesInSelectQuery? then select.tables.value.children else []
  }

  // ---------------------------------------------------------------------------------------
  // Stand-ins for helpers defined elsewhere in the analyser.

  predicate IsAnd(e: Expr) {
    e.Function? && e.name == "and" && e.arguments.ExpressionList?
  }

  /** Top-level conjuncts of a predicate, left to right; a predicate that is not an `and`
      is its own single conjunct. */
  function SplitConjunctions(e: Expr): (r: seq<Expr>)
    ensures !IsAnd(e) ==> r == [e]
    ensures forall c :: c in r ==> !IsAnd(c)
    decreases e, 1
  {
    if IsAnd(e) then SplitAll(e.arguments.children) else [e]
  }

  function SplitAll(es: seq<Expr>): (r: seq<Expr>)
    ensures forall c :: c in r ==> !IsAnd(c)
    decreases es, 0
  {
    if es == [] then [] else SplitConjunctions(es[0]) + SplitAll(es[1..])
  }

  /** Identifier nodes of a subtree, in depth-first order; the opaque subquery is not entered. */
  function CollectIdentifiers(e: Expr): (r: seq<Expr>)
    ensures forall i :: 0 <= i < |r| ==> r[i].Identifier?
    decreases e, 1
  {
    match e
    case Identifier(_, _) => [e]
    case Function(_, ExpressionList(args)) => CollectAll(args)
    case _ => []
  }

  function CollectAll(es: seq<Expr>): (r: seq<Expr>)
    ensures forall i :: 0 <= i < |r| ==> r[i].Identifier?
    decreases es, 0
  {
    if es == [] then [] else CollectIdentifiers(es[0]) + CollectAll(es[1..])
  }

  /** Identity of a named table expression; an unqualified table lives in the current database. */
  function IdentityOf(te: TableExpressionNode, currentDatabase: string): TableId
    requires te.TableExpression?
  {
    TableId(if te.database == "" then currentDatabase else te.database, te.table, te.alias)
  }

  /** Two table references denote the same table. */
  predicate Same(a: TableId, b: TableId) {
    a == b
  }

  // ---------------------------------------------------------------------------------------
  // Snapshots of the join specifications reachable from a list of FROM entries.

  function JoinOf(c: TablesChild): TableJoin? {
    if c.Element? then c.element.tableJoin else null
  }

  function Joins(cs: seq<TablesChild>): (js: seq<TableJoin?>)
    ensures |js| == |cs| && forall k :: 0 <= k < |cs| ==> js[k] == JoinOf(cs[k])
  {
    if cs == [] then [] else [JoinOf(cs[0])] + Joins(cs[1..])
  }

  function Objects(js: seq<TableJoin?>): (r: set<TableJoin>)
    ensures forall k :: 0 <= k < |js| && js[k] != null ==> js[k] in r
  {
    if js == [] then {} else (if js[0] == null then {} else {js[0]}) + Objects(js[1..])
  }

  /** The objects of a list of joins are the list's own entries. */
  lemma {:induction false} ObjectsOf(js: seq<TableJoin?>)
    ensures forall j :: j in Objects(js) ==> j in js
  {
    if js != [] {
      ObjectsOf(js[1..]);
    }
  }

  /** No join specification is shared by two entries (each syntax node has one parent). */
  predicate Distinct(js: seq<TableJoin?>) {
    forall i, k :: 0 <= i < k < |js| && js[i] != null ==> js[i] != js[k]
  }

  function StateOf(j: TableJoin?): Option<JoinState>
    reads j
  {
    if j == null then None else Some(j.State())
  }

  function States(js: seq<TableJoin?>): (st: seq<Option<JoinState>>)
    reads Objects(js)
    ensures |st| == |js|
  {
    if js == [] then [] else [StateOf(js[0])] + States(js[1..])
  }

  /** Position `k` of the snapshot is the state of the `k`-th join. */
  lemma {:induction false} StateAt(js: seq<TableJoin?>, k: nat)
    requires k < |js|
    ensures States(js)[k] == StateOf(js[k])
    decreases k
  {
    if k > 0 {
      StateAt(js[1..], k - 1);
    }
  }

  /** A snapshot is determined by the states of its joins. */
  lemma SnapshotIs(js: seq<TableJoin?>, cur: seq<Option<JoinState>>)
    requires |cur| == |js|
    requires forall k :: 0 <= k < |js| ==> StateOf(js[k]) == cur[k]
    ensures States(js) == cur
  {
    forall k | 0 <= k < |js|
      ensures States(js)[k] == cur[k]
    {
      StateAt(js, k);
    }
  }

  function KindOf(s: Option<JoinState>): Option<JoinKind> {
    if s.Some? then Some(s.value.kind) else None
  }
}
