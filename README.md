# Cross-to-inner join rewrite

A model of ClickHouse's `CrossToInnerJoinVisitor`: the query-rewrite pass that turns comma
joins and `CROSS JOIN`s of a `SELECT` into `INNER JOIN ... ON` when the top-level `WHERE`
clause holds equalities linking a joined table to an earlier one.

The pass, as modelled:

1. Walks the FROM list (`getTables`). Each entry is normalised in place, a comma join
   becoming a cross join.
2. Stops with nothing to rewrite at the first `ARRAY JOIN`.
3. Rejects a second `USING` (`NOT_IMPLEMENTED`), and a cross or comma join that already
   carries children (`LOGICAL_ERROR`).
4. Checks the entries against the analysed tables, by count and by name (`LOGICAL_ERROR`).
5. When the `cross_to_inner_join_rewrite` setting is non-zero and there is a `WHERE`,
   splits the `WHERE` into conjuncts and puts each cross-table equality into the bucket of
   the later of its two tables (`moveExpressionToJoinOn`). Any disqualifying conjunct
   empties every bucket.
6. Makes each cross join with a bucket an inner join, strictness `ALL`, on the bucket's
   combined condition (`makeOnExpression`).
7. With the setting above 1, rejects a join written as a comma join that got no condition
   (`INCORRECT_QUERY`).

Files:

- `ast.dfy` holds the syntax pieces, the join specification class `TableJoin` (the only
  thing updated in place), and stand-ins for the analyser helpers. It also holds snapshots
  (`States`) of the join specifications reachable from a FROM list.
- `joined_element.dfy` holds the `JoinedElement` view with its in-place updates, and their
  value-level partners `CommaToCross` and `CrossToInner`.
- `on_expression.dfy` holds the safety filter, the bucketing (a loop, with its reference
  definition `Bucketing`) and the ON-expression combiner.
- `table_collection.dfy` holds the FROM-list walk (a loop, with its reference definition
  `ScanFrom`).
- `matcher.dfy` holds the whole pass: `Visit`, a method over the heap, proved equal to the
  function `VisitSpec` of the join states on entry, and the lemmas about `VisitSpec`.

The analyser helpers the pass calls are modelled as follows:

- `IdentifierSemantic::getIdentsMembership` is a function parameter `resolve`, so nothing
  is fixed about it except one assumed property (`WellBehaved`): a table index it returns
  is below the number of tables.
- The other helpers are concrete definitions, chosen to match what the helpers do. Some
  proofs depend on these choices; "## Left out" says which.
  - `splitConjunctionsAst` is modelled by `SplitConjunctions`, which flattens nested `and`
    calls left to right.
  - `IdentifiersCollector::collect` is modelled by `CollectIdentifiers`, which collects
    identifier nodes depth-first and does not enter subqueries.
  - `DatabaseAndTableWithAlias` of a table expression is modelled by `IdentityOf`, over a
    table expression reduced to its database, table and alias names. An empty database
    means the current one. `same` is equality.

## Model

| member | source | states |
|---|---|---|
| JoinedElements.CommaToCross | src/Interpreters/CrossToInnerJoinVisitor.cpp:55-59 | normalisation leaves no comma join, leaves every other kind alone, and changes no field but the kind |
| JoinedElements.CommaToCrossIdempotent | src/Interpreters/CrossToInnerJoinVisitor.cpp:55-59 | normalising twice is normalising once; a comma join becomes a cross join |
| JoinedElements.CrossToInner | src/Interpreters/CrossToInnerJoinVisitor.cpp:63-74 | a non-cross join is unchanged; a cross join becomes inner, strictness ALL, with the condition as ON clause and only child; USING is kept |
| JoinedElements.CrossToInnerOnce | src/Interpreters/CrossToInnerJoinVisitor.cpp:63-74 | a second rewrite, with any condition, changes nothing |
| JoinedElements.JoinedElement.RewriteCommaToCross | src/Interpreters/CrossToInnerJoinVisitor.cpp:55-59 | the entry's join goes to its normalised state; an entry without a join stays without one |
| JoinedElements.JoinedElement.RewriteCrossToInner | src/Interpreters/CrossToInnerJoinVisitor.cpp:63-74 | returns true exactly when the join was a cross join, and leaves the join in the `CrossToInner` state |
| JoinedElements.JoinedElement.CheckTableName | src/Interpreters/CrossToInnerJoinVisitor.cpp:42-53 | succeeds exactly when the entry has a table expression of the table-expression kind whose identity (database, table, alias; empty database read as the current one) equals the given table; otherwise LOGICAL_ERROR |
| JoinedElements.JoinedElement.CanAttachOnExpression | src/Interpreters/CrossToInnerJoinVisitor.cpp:79 | true exactly when the entry's join exists and has no ON clause yet (`AcceptsOn` of its state) |
| JoinedElements.JoinedElement.HasUsing | src/Interpreters/CrossToInnerJoinVisitor.cpp:80 | true exactly when the entry's join exists and has a USING list (`UsesUsing` of its state) |
| JoinedElements.MakeJoinedElement | src/Interpreters/CrossToInnerJoinVisitor.cpp:32-40 | the view refers to the entry's own join and remembers its kind at creation (none without a join) |
| OnExpression.CollectedAliasIff | src/Interpreters/CrossToInnerJoinVisitor.cpp:93-98 | some collected identifier is a short name in the alias table exactly when the tree mentions such a name |
| OnExpression.IsAllowedToRewriteCrossJoin | src/Interpreters/CrossToInnerJoinVisitor.cpp:89-102 | a function is allowed iff no short identifier in it is an alias; identifiers and literals are allowed; anything else is not |
| OnExpression.TargetOf | src/Interpreters/CrossToInnerJoinVisitor.cpp:114-127 | a conjunct has a target only if it is a well-formed `equals` whose two sides belong to different tables; the target is the later of the two, so it is at least 1 and below the table count |
| OnExpression.Bucketing | src/Interpreters/CrossToInnerJoinVisitor.cpp:111-138 | the reference synthesis: on success every bucket's position is between 1 and the last table, names an entry that can take a condition, and holds at least one conjunct |
| OnExpression.BucketingFailsIff | src/Interpreters/CrossToInnerJoinVisitor.cpp:111-137 | the synthesis gives up exactly when some conjunct is a malformed `equals`, targets an entry that cannot take a condition, or fails the safety filter |
| OnExpression.GiveUp | src/Interpreters/CrossToInnerJoinVisitor.cpp:116-136 | one disqualifying conjunct anywhere empties the whole map |
| OnExpression.BucketingContents | src/Interpreters/CrossToInnerJoinVisitor.cpp:125-129 | on success each bucket holds exactly the conjuncts targeting its position, and a position has a bucket iff some conjunct targets it |
| OnExpression.TargetedMembers | src/Interpreters/CrossToInnerJoinVisitor.cpp:114-129 | every bucket member is a WHERE conjunct, an `equals`, aimed at that bucket |
| OnExpression.TargetedConcat | src/Interpreters/CrossToInnerJoinVisitor.cpp:112-129 | buckets keep the WHERE order: the targeted conjuncts of a concatenation are those of each part, in order |
| OnExpression.BucketingAgrees | src/Interpreters/CrossToInnerJoinVisitor.cpp:111-138 | two successful syntheses over the same conjuncts give the same map whatever the join states |
| OnExpression.BucketingMonotone | src/Interpreters/CrossToInnerJoinVisitor.cpp:128-131 | a synthesis that succeeds against states accepting fewer conditions succeeds with the same map against states accepting more |
| OnExpression.JoinOnMapMonotone | src/Interpreters/CrossToInnerJoinVisitor.cpp:128-131 | against states that accept fewer conditions the synthesis gives no bucket it would not give against states that accept more |
| OnExpression.MoveExpressionToJoinOn | src/Interpreters/CrossToInnerJoinVisitor.cpp:105-139 | the loop returns the reference map of the WHERE conjuncts over the views' current join states |
| OnExpression.MakeOnExpression | src/Interpreters/CrossToInnerJoinVisitor.cpp:141-152 | a one-element list gives its element; any other list gives `and` of all its elements, in order |
| OnExpression.SplitMakeOnExpression | src/Interpreters/CrossToInnerJoinVisitor.cpp:141-152 | splitting the combined condition of a list of conjuncts gives the list back |
| OnExpression.BucketRoundTrip | src/Interpreters/CrossToInnerJoinVisitor.cpp:141-152 | every bucket is non-empty and splitting its combined condition gives the bucket back |
| TableCollection.ScanFrom | src/Interpreters/CrossToInnerJoinVisitor.cpp:171-199 | the reference walk: it stops no earlier than where it starts and within the list, a completed walk has processed the whole list, and it never raises INCORRECT_QUERY |
| TableCollection.ScanPast | src/Interpreters/CrossToInnerJoinVisitor.cpp:171-197 | once the walk has gone past a run of entries, it continues as if started after them, with the USING flag they set |
| TableCollection.CompletedIff | src/Interpreters/CrossToInnerJoinVisitor.cpp:171-199 | the walk completes exactly when every entry is a table element with no ARRAY JOIN and no cross or comma join with children, and at most one entry has USING |
| TableCollection.ScanCompletes | src/Interpreters/CrossToInnerJoinVisitor.cpp:171-199 | a completed walk went past every entry |
| TableCollection.ScanSkips | src/Interpreters/CrossToInnerJoinVisitor.cpp:178-181 | a skipped walk stopped at its first ARRAY JOIN entry, which it normalised, having gone past every earlier entry |
| TableCollection.ScanRejectsUsing | src/Interpreters/CrossToInnerJoinVisitor.cpp:183-188 | NOT_IMPLEMENTED is raised at an entry with USING reached after exactly one earlier USING |
| TableCollection.ScanFailsInternally | src/Interpreters/CrossToInnerJoinVisitor.cpp:173-196 | LOGICAL_ERROR is raised at a child that is not a table element, or at a cross or comma join with children |
| TableCollection.ArrayJoinSkips | src/Interpreters/CrossToInnerJoinVisitor.cpp:177-181 | the first ARRAY JOIN reached ends the walk with nothing to rewrite, normalising it and the entries before it only |
| TableCollection.SecondUsingThrows | src/Interpreters/CrossToInnerJoinVisitor.cpp:183-188 | a second USING reached throws NOT_IMPLEMENTED |
| TableCollection.CrossWithChildrenThrows | src/Interpreters/CrossToInnerJoinVisitor.cpp:190-196 | a cross or comma join with children reached throws LOGICAL_ERROR |
| TableCollection.NotAnElementThrows | src/Interpreters/CrossToInnerJoinVisitor.cpp:173-175 | a child that is not a table element throws LOGICAL_ERROR before anything of it is touched |
| TableCollection.CompletedAllElements | src/Interpreters/CrossToInnerJoinVisitor.cpp:163-199 | a completed collection has at least two entries, all table elements, none with ARRAY JOIN or a cross join with children |
| TableCollection.ScanAgrees | src/Interpreters/CrossToInnerJoinVisitor.cpp:171-197 | the walk depends only on where USING lists and cross joins with children are |
| TableCollection.NormalizeEntry | src/Interpreters/CrossToInnerJoinVisitor.cpp:177-178 | normalising one entry changes that entry's state and no other |
| TableCollection.GetTables | src/Interpreters/CrossToInnerJoinVisitor.cpp:154-200 | the entries reached are normalised and the rest untouched; a failed walk throws its code; a short list or an ARRAY JOIN gives no elements; a completed walk gives one view per entry, in order, remembering the kind before normalisation |
| TableCollection.WalkTables | src/Interpreters/CrossToInnerJoinVisitor.cpp:167-199 | the loop of `getTables` meets the reference walk `ScanFrom` |
| CrossToInnerJoinMatcher.CheckTables | src/Interpreters/CrossToInnerJoinVisitor.cpp:222-231 | succeeds exactly when the views match the analysed tables in number and name; otherwise LOGICAL_ERROR |
| CrossToInnerJoinMatcher.RewriteEntry | src/Interpreters/CrossToInnerJoinVisitor.cpp:248-249 | rewrites one view's join and no other; returns whether it was a cross join |
| CrossToInnerJoinMatcher.RewriteFrom | src/Interpreters/CrossToInnerJoinVisitor.cpp:237-267 | the reference rewrite loop: it keeps the number of join states, and the only error it raises is INCORRECT_QUERY, only with the setting above 1 |
| CrossToInnerJoinMatcher.RewriteFromRejects | src/Interpreters/CrossToInnerJoinVisitor.cpp:237-267 | the rewrite loop throws INCORRECT_QUERY and nothing else, exactly when the setting is above 1 and some later cross join, written as a comma join, has no bucket |
| CrossToInnerJoinMatcher.RewriteFromLands | src/Interpreters/CrossToInnerJoinVisitor.cpp:237-253 | a rewrite loop that finishes makes every joined position with a bucket inner on that bucket's condition |
| CrossToInnerJoinMatcher.RewriteFromKeeps | src/Interpreters/CrossToInnerJoinVisitor.cpp:237-253 | finished or not, the loop leaves earlier positions alone and every join is kept or made inner on its own bucket |
| CrossToInnerJoinMatcher.RewriteJoins | src/Interpreters/CrossToInnerJoinVisitor.cpp:237-267 | the loop over the views meets the reference loop `RewriteFrom`, outcome and states |
| CrossToInnerJoinMatcher.VisitSpec | src/Interpreters/CrossToInnerJoinVisitor.cpp:216-269 | the reference pass: it keeps the number of join states; INCORRECT_QUERY needs the setting above 1 and a WHERE; with the setting 0 or no WHERE the states afterwards are those the walk normalised |
| CrossToInnerJoinMatcher.Visit | src/Interpreters/CrossToInnerJoinVisitor.cpp:216-269 | outcome and join states after the pass are those of `VisitSpec` on the states on entry |
| CrossToInnerJoinMatcher.VisitOutcomes | src/Interpreters/CrossToInnerJoinVisitor.cpp:218-268 | NOT_IMPLEMENTED comes only from the walk; LOGICAL_ERROR from the walk or from a mismatch with the analysed tables, whatever the setting; INCORRECT_QUERY iff the setting is above 1, there is a WHERE, and some entry after the first, written as a comma join, got no bucket |
| CrossToInnerJoinMatcher.VisitChanges | src/Interpreters/CrossToInnerJoinVisitor.cpp:233-253 | with the setting 0 or no WHERE only normalisation happens; the first entry is never rewritten; any other change turns a cross join with a bucket into an inner join on that bucket's condition, which splits back into the bucket |
| CrossToInnerJoinMatcher.ConsistentByEntries | src/Interpreters/CrossToInnerJoinVisitor.cpp:229-230 | the table-name checks do not depend on the join states |
| CrossToInnerJoinMatcher.VisitIdempotent | src/Interpreters/CrossToInnerJoinVisitor.cpp:216-269 | a second run over the states a successful run left behind succeeds and changes nothing |
| CrossToInnerJoinMatcher.SecondRewriteKeeps | src/Interpreters/CrossToInnerJoinVisitor.cpp:237-267 | in a second run the rewrite loop finds no bucket for any remaining cross join, so it neither rewrites nor rejects |

Proof helpers without a row: `BucketingStep` (one step of `Bucketing`), `VisitRewrites`
(one step of `VisitSpec`), `PresentAfterWalk`, `SecondBucketsIdle`, `LoopIdle`,
`RewrittenShape`, `RewrittenStable`, the `Normalized...` lemmas, `StateAt`, `SnapshotIs`
and `ObjectsOf`.

`originalKind` is a field of the immutable `JoinedElement` value. It is set once, by
`MakeJoinedElement`, and no operation can change it (`getOriginalKind`, :61).

## Left out

- Logging and message text (`LOG_DEBUG`, the `format...` calls). Errors are modelled by their error code only.
- `needChildVisit` and the one-line `visit(ASTPtr &, ...)` dispatcher (:205-214) belong to the generic tree walker. The tree walker is not part of this model, so the model covers one `SELECT` at a time and does not descend into subqueries.
- The bodies of `getIdentsMembership`, `splitConjunctionsAst`, `IdentifiersCollector::collect`, the `DatabaseAndTableWithAlias` constructor and `makeASTFunction` are not part of this model. `getIdentsMembership` is left open apart from its bound. The others are replaced by the concrete definitions described above.
- OnExpression.SplitMakeOnExpression, OnExpression.BucketRoundTrip and the last conjunct of CrossToInnerJoinMatcher.VisitChanges (splitting a combined condition gives its bucket back) hold because `SplitConjunctions` is defined to flatten nested `and` calls. They say nothing about a `splitConjunctionsAst` that splits differently.
- OnExpression.IsAllowedToRewriteCrossJoin and OnExpression.CollectedAliasIff: their contracts hold for a collector that does not enter subqueries. Identifiers inside a subquery are not modelled; a subquery is an opaque leaf.
- JoinedElements.JoinedElement.CheckTableName: a FROM entry is either a named table (database, table and alias) or of some other shape. A table function or a subquery in FROM, and the identity `DatabaseAndTableWithAlias` gives it, are not distinguished from a named table. An entry of another shape always fails the check, whereas the source would compare its identity.
- `ASTPtr` sharing and `clone()`: expressions are immutable values, so a copy is the same value. `on_expression` and `children` holding the same pointer is modelled as holding the same value.
- The cast of `table_join` to `ASTTableJoin` is assumed to succeed. The model holds the join as a `TableJoin` directly.
- `CrossToInnerJoinMatcher.Visit`: requires that every table element after the first, other than an ARRAY JOIN entry, carries a join specification, because the source dereferences it unchecked (:65, :240) once the walk has passed the whole list. It also requires that no two entries share a join specification, which holds for a syntax tree.
- `original_kind` of an element without a join is left uninitialised in the source. The model uses "none", which the rewrite loop never reads because every entry it reads has a join.
- The setting is an unbounded natural number. Only its comparisons with 0 and 1 matter.
- The loops of `getTables` and `visit` are split into helper methods (`WalkTables`, `NormalizeEntry`, `CheckTables`, `RewriteJoins`, `RewriteEntry`). The splits do not change the order of the source's steps.
