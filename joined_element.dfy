/** The view the rewrite keeps of each FROM entry: the entry, the join kind it had when the
    view was made, and the in-place updates of the entry's join specification. */
module JoinedElements {
  import opened Ast

  /** What normalising a comma join does to the fields of a join specification. */
  function CommaToCross(s: JoinState): (r: JoinState)
    ensures r.kind != Comma
    ensures s.kind != Comma ==> r == s
    ensures r.(kind := s.kind) == s
    ensures IsCrossOrComma(r.kind) == IsCrossOrComma(s.kind)
  {
    if s.kind == Comma then s.(kind := Cross) else s
  }

  /** A join specification that can take a join condition: it has none yet. */
  predicate AcceptsOn(s: Option<JoinState>) {
    s.Some? && s.value.onExpression.None?
  }

  /** A join specification with a USING list. */
  predicate UsesUsing(s: Option<JoinState>) {
    s.Some? && s.value.usingList.Some?
  }

  function NormalizeState(s: Option<JoinState>): Option<JoinState> {
    if s.Some? then Some(CommaToCross(s.value)) else None
  }

  /** What turning a cross join into an inner join with condition `on` does to the fields. */
  function CrossToInner(s: JoinState, on: Expr): (r: JoinState)
    ensures s.kind != Cross ==> r == s
    ensures s.kind == Cross ==> r.kind == Inner && r.strictness == All
    ensures s.kind == Cross ==> r.onExpression == Some(on) && r.children == [on]
    ensures r.usingList == s.usingList
  {
    if s.kind != Cross then s
    else s.(kind := Inner, strictness := All, onExpression := Some(on), children := [on])
  }

  /** Normalisation is idempotent and leaves every kind other than Comma alone. */
  lemma CommaToCrossIdempotent(s: JoinState)
    ensures CommaToCross(CommaToCross(s)) == CommaToCross(s)
    ensures s.kind != Comma ==> CommaToCross(s) == s
    ensures s.kind == Comma ==> CommaToCross(s).kind == Cross
  {
  }

  /** A join that has been made inner is no longer a rewrite target: a second attempt,
      with any condition, changes nothing. */
  lemma CrossToInnerOnce(s: JoinState, first: Expr, second: Expr)
    ensures CrossToInner(CrossToInner(s, first), second) == CrossToInner(s, first)
  {
  }

  datatype JoinedElement = JoinedElement(element: TableElement, originalKind: Option<JoinKind>)
  {
    function Join(): TableJoin? {
      element.tableJoin
    }

    /** Turns a comma join into a cross join; an entry without a join is left alone. */
    method RewriteCommaToCross()
      modifies element.tableJoin
      ensures StateOf(Join()) == NormalizeState(old(StateOf(Join())))
    {
      var join := element.tableJoin;
      if join != null && join.kind == Comma {
        join.kind := Cross;
      }
    }

    /** Makes a cross join an inner join on `onExpression`; any other kind is left alone.
        The join must exist: the caller only passes entries that carry one. */
    method RewriteCrossToInner(onExpression: Expr) returns (rewritten: bool)
      requires Join() != null
      modifies Join()
      ensures rewritten <==> old(Join().kind) == Cross
      ensures Join().State() == CrossToInner(old(Join().State()), onExpression)
    {
      var join := element.tableJoin;
      if join.kind != Cross {
        return false;
      }
      join.kind := Inner;
      join.strictness := All;
      join.onExpression := Some(onExpression);
      join.children := [onExpression];
      return true;
    }

    /** The entry has a join specification without a condition yet. */
    function CanAttachOnExpression(): (r: bool)
      reads element.tableJoin
      ensures r <==> AcceptsOn(StateOf(Join()))
    {
      Join() != null && Join().onExpression.None?
    }

    /** The entry has a join specification with a USING list. */
    function HasUsing(): (r: bool)
      reads element.tableJoin
      ensures r <==> UsesUsing(StateOf(Join()))
    {
      Join() != null && Join().usingList.Some?
    }

    /** Checks that the entry is a named table expression denoting `table`. */
    function CheckTableName(table: TableId, currentDatabase: string): (r: Result<()>)
      ensures r.Ok? <==>
        && element.tableExpression.Some?
        && element.tableExpression.value.TableExpression?
        && IdentityOf(element.tableExpression.value, currentDatabase) == table
      ensures r.Thrown? ==> r.code == LOGICAL_ERROR
    {
      if element.tableExpression.None? then Thrown(LOGICAL_ERROR)
      else if !element.tableExpression.value.TableExpression? then Thrown(LOGICAL_ERROR)
      else if !Same(table, IdentityOf(element.tableExpression.value, currentDatabase)) then Thrown(LOGICAL_ERROR)
      else Ok(())
    }
  }

  /** The view of an entry, remembering the kind of its join before any update. */
  function MakeJoinedElement(element: TableElement): (j: JoinedElement)
    reads element.tableJoin
    ensures j.element == element && j.Join() == element.tableJoin
    ensures j.originalKind == KindOf(StateOf(element.tableJoin))
  {
    JoinedElement(element, if element.tableJoin != null then Some(element.tableJoin.kind) else None)
  }

  function JoinsOfElements(js: seq<JoinedElement>): (r: seq<TableJoin?>)
    ensures |r| == |js| && forall k :: 0 <= k < |js| ==> r[k] == js[k].Join()
  {
    if js == [] then [] else [js[0].Join()] + JoinsOfElements(js[1..])
  }
}
