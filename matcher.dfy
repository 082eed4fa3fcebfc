/** The pass itself: for a SELECT whose FROM list joins several tables, it checks the list
    against the analysed tables and, when the setting allows it and there is a WHERE clause,
    turns each cross join (comma joins included) into an inner join on the WHERE equalities
    that link it to earlier tables. */
module CrossToInnerJoinMatcher {
  import opened Ast
  import opened JoinedElements
  import opened OnExpression
  import opened TableCollection

  /** What the pass is given besides the query: the analysed tables in FROM order, the alias
      table, the current database and the value of the `cross_to_inner_join_rewrite` setting
      (0 = off, 1 = rewrite where possible, 2 and more = also reject a comma join that
      cannot be rewritten). */
  datatype Data = Data(
    tablesWithColumns: seq<TableWithColumns>,
    aliases: Aliases,
    currentDatabase: string,
    crossToInnerJoinRewrite: nat)

  /** Every table element after the first, ARRAY JOIN aside, carries a join specification:
      the rewrite loop reads the join of each of them without checking for its absence (a
      list it reaches has no ARRAY JOIN). */
  predicate JoinsPresent(cs: seq<TablesChild>, st: seq<Option<JoinState>>)
    requires |st| == |cs|
  {
    forall k :: 1 <= k < |cs| && cs[k].Element? && cs[k].element.arrayJoin.None? ==> st[k].Some?
  }

  /** The views agree with the analysed tables: as many of them, and the same table at each
      position. */
  predicate Consistent(joined: seq<JoinedElement>, data: Data) {
    && |joined| == |data.tablesWithColumns|
    && forall k :: 0 <= k < |joined| ==>
         joined[k].CheckTableName(data.tablesWithColumns[k].table, data.currentDatabase).Ok?
  }

  /** The rewrite loop from position `i` on, over the join states `cur`: a cross join with a
      bucket becomes an inner join on the bucket's condition, and an entry that was written as
      a comma join but got no condition is rejected when the setting is above 1. Gives the
      outcome and the states at the point the loop ends. */
  function RewriteFrom(cur: seq<Option<JoinState>>, joined: seq<JoinedElement>, m: map<nat, seq<Expr>>, setting: nat, i: nat): (r: (Result<()>, seq<Option<JoinState>>))
    requires |joined| == |cur| && 1 <= i <= |cur|
    requires forall k :: 1 <= k < |cur| ==> cur[k].Some?
    ensures |r.1| == |cur|
    ensures r.0.Thrown? ==> r.0.code == INCORRECT_QUERY && setting > 1
    decreases |cur| - i
  {
    if i == |cur| then (Ok(()), cur)
    else if cur[i].value.kind != Cross then RewriteFrom(cur, joined, m, setting, i + 1)
    else
      var rewritten := i in m;
      var next := if rewritten then cur[i := Some(CrossToInner(cur[i].value, MakeOnExpression(m[i])))] else cur;
      if joined[i].originalKind == Some(Comma) && setting > 1 && !rewritten then (Thrown(INCORRECT_QUERY), next)
      else RewriteFrom(next, joined, m, setting, i + 1)
  }

  /** Reference for a rewrite that runs to the end: from position `i` on, every join with a
      bucket is made inner on that bucket's condition (a no-op unless it is a cross join). */
  function Rewritten(cur: seq<Option<JoinState>>, m: map<nat, seq<Expr>>, i: nat): (r: seq<Option<JoinState>>)
    ensures |r| == |cur|
    ensures forall k :: 0 <= k < |cur| ==>
      r[k] == if i <= k && cur[k].Some? && k in m then Some(CrossToInner(cur[k].value, MakeOnExpression(m[k]))) else cur[k]
  {
    seq(|cur|, k requires 0 <= k < |cur| =>
      if i <= k && cur[k].Some? && k in m then Some(CrossToInner(cur[k].value, MakeOnExpression(m[k]))) else cur[k])
  }

  /** A join the rewrite loop may leave behind: unchanged, or made inner on the condition of
      its own bucket. */
  predicate RewrittenOrKept(before: Option<JoinState>, after: Option<JoinState>, m: map<nat, seq<Expr>>, k: nat) {
    || after == before
    || (before.Some? && k in m && after == Some(CrossToInner(before.value, MakeOnExpression(m[k]))))
  }

  /** A position the rewrite loop rejects the query at: a cross join written as a comma join
      that has no bucket. */
  predicate Stranded(cur: seq<Option<JoinState>>, joined: seq<JoinedElement>, m: map<nat, seq<Expr>>, k: nat)
    requires |joined| == |cur| && k < |cur|
  {
    cur[k].Some? && cur[k].value.kind == Cross && joined[k].originalKind == Some(Comma) && k !in m
  }

  /** The rewrite loop rejects the query, with INCORRECT_QUERY and nothing else, exactly when
      the setting is above 1 and a stranded position lies ahead. */
  lemma {:induction false} RewriteFromRejects(cur: seq<Option<JoinState>>, joined: seq<JoinedElement>, m: map<nat, seq<Expr>>, setting: nat, i: nat)
    requires |joined| == |cur| && 1 <= i <= |cur|
    requires forall k :: 1 <= k < |cur| ==> cur[k].Some?
    ensures RewriteFrom(cur, joined, m, setting, i).0 in {Ok(()), Thrown(INCORRECT_QUERY)}
    ensures RewriteFrom(cur, joined, m, setting, i).0 == Thrown(INCORRECT_QUERY) <==>
            setting > 1 && exists k :: i <= k < |cur| && Stranded(cur, joined, m, k)
    decreases |cur| - i
  {
    if i < |cur| {
      var next := if cur[i].value.kind == Cross && i in m then cur[i := Some(CrossToInner(cur[i].value, MakeOnExpression(m[i])))] else cur;
      if !(setting > 1 && Stranded(cur, joined, m, i)) {
        RewriteFromRejects(next, joined, m, setting, i + 1);
        assert forall k :: i < k < |cur| ==> next[k] == cur[k];
        assert !Stranded(cur, joined, m, i) || setting <= 1;
        if setting > 1 && exists k :: i <= k < |cur| && Stranded(cur, joined, m, k) {
          var k :| i <= k < |cur| && Stranded(cur, joined, m, k);
          assert Stranded(next, joined, m, k);
        }
        if exists k :: i + 1 <= k < |next| && Stranded(next, joined, m, k) {
          var k :| i + 1 <= k < |next| && Stranded(next, joined, m, k);
          assert Stranded(cur, joined, m, k);
        }
      }
    }
  }

  /** A rewrite loop that finishes lands on the reference states. */
  lemma {:induction false} RewriteFromLands(cur: seq<Option<JoinState>>, joined: seq<JoinedElement>, m: map<nat, seq<Expr>>, setting: nat, i: nat)
    requires |joined| == |cur| && 1 <= i <= |cur|
    requires forall k :: 1 <= k < |cur| ==> cur[k].Some?
    requires RewriteFrom(cur, joined, m, setting, i).0 == Ok(())
    ensures RewriteFrom(cur, joined, m, setting, i).1 == Rewritten(cur, m, i)
    decreases |cur| - i
  {
    if i == |cur| {
      assert Rewritten(cur, m, i) == cur;
    } else {
      var next := if cur[i].value.kind == Cross && i in m then cur[i := Some(CrossToInner(cur[i].value, MakeOnExpression(m[i])))] else cur;
      RewriteFromLands(next, joined, m, setting, i + 1);
      assert Rewritten(next, m, i + 1) == Rewritten(cur, m, i);
    }
  }

  /** Whether or not it finishes, the rewrite loop leaves positions before `i` alone, and
      every other join is kept or made inner on its own bucket. */
  lemma {:induction false} RewriteFromKeeps(cur: seq<Option<JoinState>>, joined: seq<JoinedElement>, m: map<nat, seq<Expr>>, setting: nat, i: nat)
    requires |joined| == |cur| && 1 <= i <= |cur|
    requires forall k :: 1 <= k < |cur| ==> cur[k].Some?
    ensures forall k :: 0 <= k < i ==> RewriteFrom(cur, joined, m, setting, i).1[k] == cur[k]
    ensures forall k :: 0 <= k < |cur| ==> RewrittenOrKept(cur[k], RewriteFrom(cur, joined, m, setting, i).1[k], m, k)
    decreases |cur| - i
  {
    if i < |cur| && cur[i].value.kind == Cross {
      var next := if i in m then cur[i := Some(CrossToInner(cur[i].value, MakeOnExpression(m[i])))] else cur;
      if !(joined[i].originalKind == Some(Comma) && setting > 1 && i !in m) {
        RewriteFromKeeps(next, joined, m, setting, i + 1);
        var r := RewriteFrom(next, joined, m, setting, i + 1);
        forall k | 0 <= k < |cur|
          ensures RewrittenOrKept(cur[k], r.1[k], m, k)
        {
          if k == i {
            assert r.1[k] == next[k];
          } else {
            assert next[k] == cur[k];
          }
        }
      }
    } else if i < |cur| {
      RewriteFromKeeps(cur, joined, m, setting, i + 1);
    }
  }

  /** The whole pass over one SELECT, as a function of the join states on entry: gives the
      outcome and the join states afterwards. */
  function VisitSpec(select: SelectQuery, data: Data, resolve: Resolver, st: seq<Option<JoinState>>): (r: (Result<()>, seq<Option<JoinState>>))
    requires WellBehaved(resolve)
    requires |st| == |ChildrenOf(select)| && JoinsPresent(ChildrenOf(select), st)
    ensures |r.1| == |st|
    ensures r.0 == Thrown(INCORRECT_QUERY) ==> data.crossToInnerJoinRewrite > 1 && select.where.Some?
    ensures (data.crossToInnerJoinRewrite == 0 || select.where.None?) ==> r.1 == Normalized(st, CollectTables(ChildrenOf(select), st).processed)
  {
    var cs := ChildrenOf(select);
    var scanned := CollectTables(cs, st);
    var normalized := Normalized(st, scanned.processed);
    match scanned.outcome
    case Failed(c) => (Thrown(c), normalized)
    case Skipped => (Ok(()), normalized)
    case Completed =>
      CompletedAllElements(cs, st);
      var joined := ExpectedJoined(cs, st);
      if !Consistent(joined, data) then (Thrown(LOGICAL_ERROR), normalized)
      else if data.crossToInnerJoinRewrite == 0 || select.where.None? then (Ok(()), normalized)
      else
        var m := JoinOnMap(SplitConjunctions(select.where.value), normalized, data.tablesWithColumns, data.aliases, resolve);
        RewriteFrom(normalized, joined, m, data.crossToInnerJoinRewrite, 1)
  }

  /** The buckets the pass computes for a query it gets to rewrite. */
  function BucketsOf(select: SelectQuery, data: Data, resolve: Resolver, st: seq<Option<JoinState>>): map<nat, seq<Expr>>
    requires WellBehaved(resolve) && select.where.Some?
    requires |st| == |ChildrenOf(select)| == |data.tablesWithColumns|
  {
    JoinOnMap(SplitConjunctions(select.where.value), Normalized(st, |st|), data.tablesWithColumns, data.aliases, resolve)
  }

  /** The views of a completed walk reach the same join specifications as the FROM list. */
  lemma JoinsOfExpected(cs: seq<TablesChild>, st: seq<Option<JoinState>>)
    requires |st| == |cs| && AllElements(cs)
    ensures JoinsOfElements(ExpectedJoined(cs, st)) == Joins(cs)
  {
    var js := JoinsOfElements(ExpectedJoined(cs, st));
    assert forall k :: 0 <= k < |cs| ==> js[k] == Joins(cs)[k];
  }

  /** Makes the join of `t`, the `i`-th of `js`, an inner join on `onExpression` if it is a
      cross join; no other join changes. */
  method RewriteEntry(t: JoinedElement, ghost js: seq<TableJoin?>, ghost i: nat, ghost before: seq<Option<JoinState>>, onExpression: Expr)
    returns (rewritten: bool)
    requires i < |js| && js[i] == t.Join() && t.Join() != null && Distinct(js)
    requires States(js) == before && before[i].Some?
    modifies t.Join()
    ensures rewritten <==> before[i].value.kind == Cross
    ensures States(js) == before[i := Some(CrossToInner(before[i].value, onExpression))]
  {
    forall k | 0 <= k < |js|
      ensures StateOf(js[k]) == before[k]
    {
      StateAt(js, k);
    }
    rewritten := t.RewriteCrossToInner(onExpression);
    SnapshotIs(js, before[i := Some(CrossToInner(before[i].value, onExpression))]);
  }

  /** Checks the views against the analysed tables: their number, then each table name. */
  method CheckTables(joined: seq<JoinedElement>, data: Data) returns (r: Result<()>)
    ensures r == if Consistent(joined, data) then Ok(()) else Thrown(LOGICAL_ERROR)
  {
    if |joined| != |data.tablesWithColumns| {
      return Thrown(LOGICAL_ERROR);
    }
    var i := 0;
    while i < |joined|
      invariant 0 <= i <= |joined|
      invariant forall k :: 0 <= k < i ==>
        joined[k].CheckTableName(data.tablesWithColumns[k].table, data.currentDatabase).Ok?
    {
      var checked := joined[i].CheckTableName(data.tablesWithColumns[i].table, data.currentDatabase);
      if checked.Thrown? {
        return Thrown(checked.code);
      }
      i := i + 1;
    }
    return Ok(());
  }

  /** Runs the pass on one SELECT, updating its join specifications in place. */
  method Visit(select: SelectQuery, data: Data, resolve: Resolver) returns (r: Result<()>)
    requires WellBehaved(resolve)
    requires Distinct(Joins(ChildrenOf(select)))
    requires JoinsPresent(ChildrenOf(select), States(Joins(ChildrenOf(select))))
    modifies Objects(Joins(ChildrenOf(select)))
    ensures (r, States(Joins(ChildrenOf(select)))) == VisitSpec(select, data, resolve, old(States(Joins(ChildrenOf(select)))))
  {
    ghost var cs := ChildrenOf(select);
    ghost var js := Joins(cs);
    ghost var st := States(js);
    var tables := GetTables(select);
    if tables.Thrown? {
      return Thrown(tables.code);
    }
    var joined := tables.value;
    if joined == [] {
      return Ok(());
    }
    CompletedAllElements(cs, st);
    assert CollectTables(cs, st).outcome == Completed;
    assert States(js) == Normalized(st, |cs|);
    ObjectsOf(js);
    var checked := CheckTables(joined, data);
    assert States(js) == Normalized(st, |cs|);
    if checked.Thrown? {
      assert VisitSpec(select, data, resolve, st) == (Thrown(LOGICAL_ERROR), Normalized(st, |cs|));
      return checked;
    }
    if data.crossToInnerJoinRewrite == 0 || select.where.None? {
      return Ok(());
    }
    JoinsOfExpected(cs, st);
    var asts := MoveExpressionToJoinOn(select.where.value, joined, data.tablesWithColumns, data.aliases, resolve);
    VisitRewrites(select, data, resolve, st);
    r := RewriteJoins(joined, asts, data.crossToInnerJoinRewrite, js);
  }

  /** After a completed walk every entry after the first carries a join specification. */
  lemma PresentAfterWalk(cs: seq<TablesChild>, st: seq<Option<JoinState>>)
    requires |st| == |cs| && JoinsPresent(cs, st) && CollectTables(cs, st).outcome == Completed
    ensures forall k :: 1 <= k < |cs| ==> st[k].Some? && Normalized(st, |cs|)[k].Some?
  {
    CompletedAllElements(cs, st);
    assert forall k :: 1 <= k < |cs| ==> Clean(cs[k], st[k]);
  }

  /** For a query the pass gets to rewrite, the pass is the rewrite loop over the normalised
      states with the buckets of the WHERE clause, and every join it visits is present. */
  lemma VisitRewrites(select: SelectQuery, data: Data, resolve: Resolver, st: seq<Option<JoinState>>)
    requires WellBehaved(resolve)
    requires |st| == |ChildrenOf(select)| && JoinsPresent(ChildrenOf(select), st)
    requires Admitted(select, data, st) && data.crossToInnerJoinRewrite != 0 && select.where.Some?
    ensures var normalized := Normalized(st, |st|);
      && (forall k :: 1 <= k < |st| ==> normalized[k].Some?)
      && VisitSpec(select, data, resolve, st) ==
           RewriteFrom(normalized, ExpectedJoined(ChildrenOf(select), st), BucketsOf(select, data, resolve, st), data.crossToInnerJoinRewrite, 1)
  {
    var cs := ChildrenOf(select);
    CompletedAllElements(cs, st);
    assert forall k :: 1 <= k < |cs| ==> cs[k].Element? && Clean(cs[k], st[k]) && st[k].Some?;
  }

  /** The rewrite loop of the pass: walks the views from position 1, making each cross join
      with a bucket an inner join on the bucket's condition, and rejects the query at a comma
      join left without one when the setting is above 1. */
  method RewriteJoins(joined: seq<JoinedElement>, asts: map<nat, seq<Expr>>, setting: nat, ghost js: seq<TableJoin?>)
    returns (r: Result<()>)
    requires |joined| == |js| >= 1 && Distinct(js)
    requires forall k :: 0 <= k < |js| ==> joined[k].Join() == js[k]
    requires forall k :: 1 <= k < |js| ==> States(js)[k].Some?
    modifies Objects(js)
    ensures (r, States(js)) == RewriteFrom(old(States(js)), joined, asts, setting, 1)
  {
    ghost var st := States(js);
    var i := 1;
    while i < |joined|
      invariant 1 <= i <= |joined|
      invariant forall k :: 1 <= k < |js| ==> States(js)[k].Some?
      invariant RewriteFrom(States(js), joined, asts, setting, i) == RewriteFrom(st, joined, asts, setting, 1)
    {
      var element := joined[i];
      StateAt(js, i);
      var join := element.Join();
      if join.kind != Cross {
        i := i + 1;
        continue;
      }
      var rewritten := false;
      if i in asts {
        var onExpression := MakeOnExpression(asts[i]);
        rewritten := RewriteEntry(element, js, i, States(js), onExpression);
      }
      if element.originalKind == Some(Comma) && setting > 1 && !rewritten {
        return Thrown(INCORRECT_QUERY);
      }
      i := i + 1;
    }
    return Ok(());
  }

  // ---------------------------------------------------------------------------------------
  // What the pass promises

  /** The FROM list is walked to the end and agrees with the analysed tables: the pass gets
      past its checks. */
  predicate Admitted(select: SelectQuery, data: Data, st: seq<Option<JoinState>>)
    requires |st| == |ChildrenOf(select)|
  {
    var cs := ChildrenOf(select);
    && CollectTables(cs, st).outcome == Completed
    && AllElements(cs)
    && Consistent(ExpectedJoined(cs, st), data)
  }

  /** How each outcome of the pass comes about. The walk's errors pass through unchanged; a
      list that disagrees with the analysed tables is an internal error whatever the setting;
      and the query is rejected as incorrect exactly when the setting is above 1, there is a
      WHERE clause, and some entry after the first was written as a comma join and got no
      bucket. */
  lemma VisitOutcomes(select: SelectQuery, data: Data, resolve: Resolver, st: seq<Option<JoinState>>)
    requires WellBehaved(resolve)
    requires |st| == |ChildrenOf(select)| && JoinsPresent(ChildrenOf(select), st)
    ensures var scanned := CollectTables(ChildrenOf(select), st);
            var r := VisitSpec(select, data, resolve, st).0;
      && (r == Thrown(NOT_IMPLEMENTED) <==> scanned.outcome == Failed(NOT_IMPLEMENTED))
      && (r == Thrown(LOGICAL_ERROR) <==>
            scanned.outcome == Failed(LOGICAL_ERROR) || (scanned.outcome == Completed && !Admitted(select, data, st)))
      && (r == Thrown(INCORRECT_QUERY) <==>
            && Admitted(select, data, st)
            && data.crossToInnerJoinRewrite > 1 && select.where.Some?
            && exists k :: 1 <= k < |st| && KindOf(st[k]) == Some(Comma) && k !in BucketsOf(select, data, resolve, st))
  {
    var cs := ChildrenOf(select);
    CompletedAllElements(cs, st);
    if Admitted(select, data, st) && data.crossToInnerJoinRewrite != 0 && select.where.Some? {
      var joined := ExpectedJoined(cs, st);
      var normalized := Normalized(st, |cs|);
      var m := BucketsOf(select, data, resolve, st);
      RewriteFromRejects(normalized, joined, m, data.crossToInnerJoinRewrite, 1);
      assert forall k :: 1 <= k < |cs| ==> (Stranded(normalized, joined, m, k) <==> KindOf(st[k]) == Some(Comma) && k !in m);
    }
  }

  /** What the pass does to the join states: every entry it walked is comma-normalised, and
      beyond that only an entry after the first, left a cross join by normalisation, can
      change, and then only into an inner join (strictness ALL) whose ON clause and only
      child is the combined condition of its bucket, from which splitting gives the bucket
      back. With the setting at 0 or without WHERE, normalisation is all that happens. */
  lemma VisitChanges(select: SelectQuery, data: Data, resolve: Resolver, st: seq<Option<JoinState>>)
    requires WellBehaved(resolve)
    requires |st| == |ChildrenOf(select)| && JoinsPresent(ChildrenOf(select), st)
    ensures var normalized := Normalized(st, CollectTables(ChildrenOf(select), st).processed);
            var after := VisitSpec(select, data, resolve, st).1;
      && ((data.crossToInnerJoinRewrite == 0 || select.where.None?) ==> after == normalized)
      && (|st| > 0 ==> after[0] == normalized[0])
      && forall k :: 0 <= k < |st| && after[k] != normalized[k] ==>
           && Admitted(select, data, st) && select.where.Some?
           && k in BucketsOf(select, data, resolve, st)
           && var bucket := BucketsOf(select, data, resolve, st);
              var on := MakeOnExpression(bucket[k]);
           && normalized[k].Some? && normalized[k].value.kind == Cross
           && after[k] == Some(normalized[k].value.(kind := Inner, strictness := All, onExpression := Some(on), children := [on]))
           && SplitConjunctions(on) == bucket[k]
  {
    var cs := ChildrenOf(select);
    CompletedAllElements(cs, st);
    if Admitted(select, data, st) && data.crossToInnerJoinRewrite != 0 && select.where.Some? {
      var joined := ExpectedJoined(cs, st);
      var normalized := Normalized(st, |cs|);
      var m := BucketsOf(select, data, resolve, st);
      RewriteFromKeeps(normalized, joined, m, data.crossToInnerJoinRewrite, 1);
      var after := VisitSpec(select, data, resolve, st).1;
      forall k | 0 <= k < |st| && after[k] != normalized[k]
        ensures k in m && normalized[k].Some? && normalized[k].value.kind == Cross
        ensures SplitConjunctions(MakeOnExpression(m[k])) == m[k]
      {
        assert RewrittenOrKept(normalized[k], after[k], m, k);
        BucketRoundTrip(select.where.value, normalized, data.tablesWithColumns, data.aliases, resolve, k);
      }
    }
  }

  /** Normalising the first `n` entries leaves the walk's view of every state alone. */
  lemma NormalizedScanView(st: seq<Option<JoinState>>, n: nat)
    ensures forall k :: 0 <= k < |st| ==>
      && UsesUsing(Normalized(st, n)[k]) == UsesUsing(st[k])
      && CrossWithChildren(Normalized(st, n)[k]) == CrossWithChildren(st[k])
      && (KindOf(Normalized(st, n)[k]) != Some(Comma) || k >= n)
  {
  }

  /** States without a comma join are their own normalisation. */
  lemma NormalizedNoComma(st: seq<Option<JoinState>>, n: nat)
    requires forall k :: 0 <= k < |st| ==> KindOf(st[k]) != Some(Comma)
    ensures Normalized(st, n) == st
  {
    assert forall k :: 0 <= k < |st| ==> Normalized(st, n)[k] == st[k];
  }

  /** The table-name checks look only at the entries, not at the remembered kinds. */
  lemma ConsistentByEntries(cs: seq<TablesChild>, st1: seq<Option<JoinState>>, st2: seq<Option<JoinState>>, data: Data)
    requires |st1| == |cs| && |st2| == |cs| && AllElements(cs)
    ensures Consistent(ExpectedJoined(cs, st1), data) == Consistent(ExpectedJoined(cs, st2), data)
  {
    var j1 := ExpectedJoined(cs, st1);
    var j2 := ExpectedJoined(cs, st2);
    assert forall k :: 0 <= k < |cs| ==> j1[k].element == j2[k].element;
  }

  /** Running the pass a second time, over the join states a successful first run left
      behind, succeeds and changes nothing. */
  lemma VisitIdempotent(select: SelectQuery, data: Data, resolve: Resolver, st: seq<Option<JoinState>>)
    requires WellBehaved(resolve)
    requires |st| == |ChildrenOf(select)| && JoinsPresent(ChildrenOf(select), st)
    requires VisitSpec(select, data, resolve, st).0 == Ok(())
    ensures var after := VisitSpec(select, data, resolve, st).1;
      JoinsPresent(ChildrenOf(select), after) && VisitSpec(select, data, resolve, after) == (Ok(()), after)
  {
    var cs := ChildrenOf(select);
    var after := VisitSpec(select, data, resolve, st).1;
    var scanned := CollectTables(cs, st);
    var normalized := Normalized(st, scanned.processed);
    CompletedAllElements(cs, st);
    NormalizedScanView(st, scanned.processed);
    VisitChanges(select, data, resolve, st);
    // The second walk sees what the first one saw.
    forall k | 0 <= k < |cs|
      ensures UsesUsing(after[k]) == UsesUsing(st[k]) && CrossWithChildren(after[k]) == CrossWithChildren(st[k])
      ensures after[k].Some? == st[k].Some?
    {
      if after[k] != normalized[k] {
        assert Clean(cs[k], st[k]);
      }
    }
    ScanAgrees(cs, st, after, 0, false);
    assert CollectTables(cs, after) == scanned;
    assert JoinsPresent(cs, after);
    // Nothing is left to normalise.
    if scanned.outcome == Skipped {
      CommaToCrossAll(st, scanned.processed);
    } else {
      assert scanned.outcome == Completed;
      ConsistentByEntries(cs, st, after, data);
      forall k | 0 <= k < |cs|
        ensures KindOf(after[k]) != Some(Comma)
      {
        if after[k] == normalized[k] {
          assert KindOf(normalized[k]) != Some(Comma);
        }
      }
      NormalizedNoComma(after, |cs|);
      if data.crossToInnerJoinRewrite != 0 && select.where.Some? {
        VisitRewrites(select, data, resolve, st);
        VisitRewrites(select, data, resolve, after);
        SecondRewriteKeeps(SplitConjunctions(select.where.value), normalized, after, ExpectedJoined(cs, st), ExpectedJoined(cs, after),
                           data.tablesWithColumns, data.aliases, resolve, data.crossToInnerJoinRewrite);
      }
    }
  }

  /** Normalising twice is normalising once. */
  lemma CommaToCrossAll(st: seq<Option<JoinState>>, n: nat)
    ensures Normalized(Normalized(st, n), n) == Normalized(st, n)
  {
    forall s: JoinState {
      CommaToCrossIdempotent(s);
    }
    assert forall k :: 0 <= k < |st| ==> Normalized(Normalized(st, n), n)[k] == Normalized(st, n)[k];
  }

  /** The rewrite step of a second run: every join the first run left a cross join had no
      bucket then and has none now, and none was written as a comma join, so the loop
      neither rewrites nor rejects anything. */
  lemma SecondRewriteKeeps(conj: seq<Expr>, cur: seq<Option<JoinState>>, after: seq<Option<JoinState>>,
                           joined: seq<JoinedElement>, joined2: seq<JoinedElement>,
                           tables: seq<TableWithColumns>, aliases: Aliases, resolve: Resolver, setting: nat)
    requires WellBehaved(resolve)
    requires |cur| == |tables| && |after| == |tables| && |joined| == |tables| && |joined2| == |tables| && 1 <= |tables|
    requires forall k :: 1 <= k < |cur| ==> cur[k].Some?
    requires RewriteFrom(cur, joined, JoinOnMap(conj, cur, tables, aliases, resolve), setting, 1).0 == Ok(())
    requires RewriteFrom(cur, joined, JoinOnMap(conj, cur, tables, aliases, resolve), setting, 1).1 == after
    requires forall k :: 0 <= k < |joined2| ==> joined2[k].originalKind != Some(Comma)
    ensures forall k :: 1 <= k < |after| ==> after[k].Some?
    ensures RewriteFrom(after, joined2, JoinOnMap(conj, after, tables, aliases, resolve), setting, 1) == (Ok(()), after)
  {
    var m := JoinOnMap(conj, cur, tables, aliases, resolve);
    RewriteFromLands(cur, joined, m, setting, 1);
    SecondBucketsIdle(conj, cur, tables, aliases, resolve);
    LoopIdle(after, joined2, JoinOnMap(conj, after, tables, aliases, resolve), setting);
  }

  /** The buckets a second synthesis finds, over the states the first rewrite left, rewrite
      nothing. */
  lemma SecondBucketsIdle(conj: seq<Expr>, cur: seq<Option<JoinState>>, tables: seq<TableWithColumns>, aliases: Aliases, resolve: Resolver)
    requires WellBehaved(resolve) && |cur| == |tables|
    ensures var after := Rewritten(cur, JoinOnMap(conj, cur, tables, aliases, resolve), 1);
      && (forall k :: 0 <= k < |cur| ==> after[k].Some? == cur[k].Some?)
      && NoCrossInBuckets(after, JoinOnMap(conj, after, tables, aliases, resolve))
  {
    var m := JoinOnMap(conj, cur, tables, aliases, resolve);
    var after := Rewritten(cur, m, 1);
    RewrittenShape(cur, m);
    // A second run accepts fewer conditions, so its buckets are among those of the first run.
    JoinOnMapMonotone(conj, cur, after, tables, aliases, resolve);
    RewrittenStable(cur, m, JoinOnMap(conj, after, tables, aliases, resolve));
  }

  /** No join with a bucket is still a cross join. */
  predicate NoCrossInBuckets(cur: seq<Option<JoinState>>, m: map<nat, seq<Expr>>) {
    forall k :: 1 <= k < |cur| && cur[k].Some? && k in m ==> cur[k].value.kind != Cross
  }

  /** A rewrite loop over states its buckets leave alone, with no join written as a comma
      join, finishes and changes nothing. */
  lemma LoopIdle(cur: seq<Option<JoinState>>, joined: seq<JoinedElement>, m: map<nat, seq<Expr>>, setting: nat)
    requires |joined| == |cur| && 1 <= |cur|
    requires forall k :: 1 <= k < |cur| ==> cur[k].Some?
    requires forall k :: 0 <= k < |joined| ==> joined[k].originalKind != Some(Comma)
    requires NoCrossInBuckets(cur, m)
    ensures RewriteFrom(cur, joined, m, setting, 1) == (Ok(()), cur)
  {
    assert Rewritten(cur, m, 1) == cur;
    RewriteFromRejects(cur, joined, m, setting, 1);
    RewriteFromLands(cur, joined, m, setting, 1);
  }

  /** The rewrite keeps which joins are present and never makes a join take a condition it
      could not take before. */
  lemma RewrittenShape(cur: seq<Option<JoinState>>, m: map<nat, seq<Expr>>)
    ensures forall k :: 0 <= k < |cur| ==>
      && Rewritten(cur, m, 1)[k].Some? == cur[k].Some?
      && (AcceptsOn(Rewritten(cur, m, 1)[k]) ==> AcceptsOn(cur[k]))
  {
    forall k | 0 <= k < |cur|
      ensures Rewritten(cur, m, 1)[k].Some? == cur[k].Some?
      ensures AcceptsOn(Rewritten(cur, m, 1)[k]) ==> AcceptsOn(cur[k])
    {
      if 1 <= k && cur[k].Some? && k in m {
        var on := MakeOnExpression(m[k]);
        assert Rewritten(cur, m, 1)[k] == Some(CrossToInner(cur[k].value, on));
      }
    }
  }

  /** After a rewrite, no join with one of the rewrite's buckets is still a cross join. */
  lemma RewrittenStable(cur: seq<Option<JoinState>>, m: map<nat, seq<Expr>>, m2: map<nat, seq<Expr>>)
    requires forall k :: k in m2 ==> k in m
    ensures NoCrossInBuckets(Rewritten(cur, m, 1), m2)
  {
    var after := Rewritten(cur, m, 1);
    forall k | 1 <= k < |cur| && after[k].Some? && k in m2
      ensures after[k].value.kind != Cross
    {
      assert after[k] == Some(CrossToInner(cur[k].value, MakeOnExpression(m[k])));
    }
  }
}
