/** Collecting the FROM list into joined elements: every entry is comma-normalised as it is
    reached, an ARRAY JOIN stops the walk with nothing to rewrite, a second USING and a
    cross or comma join that already has children are errors. */
module TableCollection {
  import opened Ast
  import opened JoinedElements

  datatype Scan = Completed | Skipped | Failed(code: ErrorCode)

  /** How the walk over the FROM list ended, and how many entries it normalised. */
  datatype Scanned = Scanned(outcome: Scan, processed: nat)

  /** A cross or comma join that already carries child expressions. */
  predicate CrossWithChildren(s: Option<JoinState>) {
    s.Some? && IsCrossOrComma(s.value.kind) && s.value.children != []
  }

  /** An entry the walk goes past without stopping, USING aside. */
  predicate Clean(c: TablesChild, s: Option<JoinState>) {
    c.Element? && c.element.arrayJoin.None? && !CrossWithChildren(s)
  }

  /** A table element without ARRAY JOIN: the walk gets to its USING and children checks. */
  predicate Entered(c: TablesChild) {
    c.Element? && c.element.arrayJoin.None?
  }

  function Count(b: bool): nat {
    if b then 1 else 0
  }

  /** Number of entries with a USING list among positions i .. k - 1. */
  function UsingsBetween(st: seq<Option<JoinState>>, i: nat, k: nat): nat
    requires k <= |st|
    decreases k
  {
    if k <= i then 0 else UsingsBetween(st, i, k - 1) + Count(UsesUsing(st[k - 1]))
  }

  /** The walk, started at position `i` with `seenUsing` set or not, goes past every entry
      before position `k`. */
  predicate Reached(cs: seq<TablesChild>, st: seq<Option<JoinState>>, i: nat, seenUsing: bool, k: nat)
    requires |st| == |cs|
  {
    && i <= k <= |cs|
    && (forall j :: i <= j < k ==> Clean(cs[j], st[j]))
    && UsingsBetween(st, i, k) + Count(seenUsing) <= 1
  }

  /** The walk over the FROM list from position `i`, given the join states the entries have
      on entry; `processed` counts the entries normalised from the start of the list. */
  function ScanFrom(cs: seq<TablesChild>, st: seq<Option<JoinState>>, i: nat, seenUsing: bool): (r: Scanned)
    requires |st| == |cs| && i <= |cs|
    ensures i <= r.processed <= |cs|
    ensures r.outcome == Completed ==> r.processed == |cs|
    ensures r.outcome != Failed(INCORRECT_QUERY)
    decreases |cs| - i
  {
    if i == |cs| then Scanned(Completed, i)
    else if !cs[i].Element? then Scanned(Failed(LOGICAL_ERROR), i)
    else if cs[i].element.arrayJoin.Some? then Scanned(Skipped, i + 1)
    else if UsesUsing(st[i]) && seenUsing then Scanned(Failed(NOT_IMPLEMENTED), i + 1)
    else if CrossWithChildren(st[i]) then Scanned(Failed(LOGICAL_ERROR), i + 1)
    else ScanFrom(cs, st, i + 1, seenUsing || UsesUsing(st[i]))
  }

  /** The walk applied to a whole query: a list of fewer than two entries is left alone. */
  function CollectTables(cs: seq<TablesChild>, st: seq<Option<JoinState>>): Scanned
    requires |st| == |cs|
  {
    if |cs| < 2 then Scanned(Skipped, 0) else ScanFrom(cs, st, 0, false)
  }

  /** The states after the first `n` entries have been comma-normalised. */
  function Normalized(st: seq<Option<JoinState>>, n: nat): (r: seq<Option<JoinState>>)
    ensures |r| == |st|
    ensures forall k :: 0 <= k < |st| ==> r[k] == if k < n then NormalizeState(st[k]) else st[k]
  {
    seq(|st|, k requires 0 <= k < |st| => if k < n then NormalizeState(st[k]) else st[k])
  }

  predicate AllElements(cs: seq<TablesChild>) {
    forall k :: 0 <= k < |cs| ==> cs[k].Element?
  }

  /** The joined elements of a completed walk: one per entry, in order, each remembering
      its join kind from before normalisation. */
  function ExpectedJoined(cs: seq<TablesChild>, st: seq<Option<JoinState>>): (r: seq<JoinedElement>)
    requires |st| == |cs|
    requires AllElements(cs)
    ensures |r| == |cs|
    ensures forall k :: 0 <= k < |cs| ==> r[k] == JoinedElement(cs[k].element, KindOf(st[k]))
  {
    seq(|cs|, k requires 0 <= k < |cs| => JoinedElement(cs[k].element, KindOf(st[k])))
  }

  lemma NormalizedStep(st: seq<Option<JoinState>>, i: nat)
    requires i < |st|
    ensures Normalized(st, i)[i := NormalizeState(Normalized(st, i)[i])] == Normalized(st, i + 1)
  {
  }

  /** Normalises the entry at position `i` of `js`, the join of `t`; no other entry changes. */
  method NormalizeEntry(t: JoinedElement, ghost js: seq<TableJoin?>, ghost i: nat, ghost before: seq<Option<JoinState>>)
    requires i < |js| && js[i] == t.Join() && Distinct(js) && States(js) == before
    modifies t.element.tableJoin
    ensures States(js) == before[i := NormalizeState(before[i])]
  {
    forall k | 0 <= k < |js|
      ensures StateOf(js[k]) == before[k]
    {
      StateAt(js, k);
    }
    t.RewriteCommaToCross();
    SnapshotIs(js, before[i := NormalizeState(before[i])]);
  }

  lemma ScanFromStep(cs: seq<TablesChild>, st: seq<Option<JoinState>>, i: nat, seenUsing: bool)
    requires |st| == |cs| && i < |cs|
    requires Clean(cs[i], st[i]) && !(UsesUsing(st[i]) && seenUsing)
    ensures ScanFrom(cs, st, i, seenUsing) == ScanFrom(cs, st, i + 1, seenUsing || UsesUsing(st[i]))
  {
  }

  lemma {:induction false} UsingsSplit(st: seq<Option<JoinState>>, i: nat, k: nat)
    requires i < k <= |st|
    ensures UsingsBetween(st, i, k) == Count(UsesUsing(st[i])) + UsingsBetween(st, i + 1, k)
    decreases k
  {
    if k > i + 1 {
      UsingsSplit(st, i, k - 1);
    }
  }

  /** Going past a clean entry at position `i` moves the walk's start to `i + 1` without
      changing which later positions it reaches. */
  lemma ReachedStep(cs: seq<TablesChild>, st: seq<Option<JoinState>>, i: nat, seenUsing: bool, k: nat)
    requires |st| == |cs| && i < k <= |cs|
    requires Clean(cs[i], st[i]) && !(UsesUsing(st[i]) && seenUsing)
    ensures UsingsBetween(st, i, k) + Count(seenUsing) == UsingsBetween(st, i + 1, k) + Count(seenUsing || UsesUsing(st[i]))
    ensures Reached(cs, st, i, seenUsing, k) <==> Reached(cs, st, i + 1, seenUsing || UsesUsing(st[i]), k)
  {
    UsingsSplit(st, i, k);
  }

  /** The walk goes past every entry it reaches, remembering whether one of them had USING. */
  lemma {:induction false} ScanPast(cs: seq<TablesChild>, st: seq<Option<JoinState>>, i: nat, seenUsing: bool, k: nat)
    requires |st| == |cs| && Reached(cs, st, i, seenUsing, k)
    ensures ScanFrom(cs, st, i, seenUsing) == ScanFrom(cs, st, k, seenUsing || UsingsBetween(st, i, k) > 0)
    decreases k - i
  {
    if i < k {
      UsingsSplit(st, i, k);
      ReachedStep(cs, st, i, seenUsing, k);
      ScanFromStep(cs, st, i, seenUsing);
      ScanPast(cs, st, i + 1, seenUsing || UsesUsing(st[i]), k);
    }
  }

  /** A walk completes only after going past every entry. */
  lemma {:induction false} ScanCompletes(cs: seq<TablesChild>, st: seq<Option<JoinState>>, i: nat, seenUsing: bool)
    requires |st| == |cs| && i <= |cs|
    requires ScanFrom(cs, st, i, seenUsing).outcome == Completed
    ensures Reached(cs, st, i, seenUsing, |cs|)
    decreases |cs| - i
  {
    if i < |cs| {
      ScanCompletes(cs, st, i + 1, seenUsing || UsesUsing(st[i]));
      ReachedStep(cs, st, i, seenUsing, |cs|);
    }
  }

  /** A walk that ends with nothing to rewrite stopped at the first ARRAY JOIN entry it reached. */
  lemma {:induction false} ScanSkips(cs: seq<TablesChild>, st: seq<Option<JoinState>>, i: nat, seenUsing: bool)
    requires |st| == |cs| && i <= |cs|
    requires ScanFrom(cs, st, i, seenUsing).outcome == Skipped
    ensures var p := ScanFrom(cs, st, i, seenUsing).processed;
      && i < p && Reached(cs, st, i, seenUsing, p - 1)
      && cs[p - 1].Element? && cs[p - 1].element.arrayJoin.Some?
    decreases |cs| - i
  {
    if Clean(cs[i], st[i]) && !(UsesUsing(st[i]) && seenUsing) {
      var p := ScanFrom(cs, st, i, seenUsing).processed;
      ScanSkips(cs, st, i + 1, seenUsing || UsesUsing(st[i]));
      ReachedStep(cs, st, i, seenUsing, p - 1);
    }
  }

  /** A walk rejected as unsupported stopped at an entry with USING after one had been seen. */
  lemma {:induction false} ScanRejectsUsing(cs: seq<TablesChild>, st: seq<Option<JoinState>>, i: nat, seenUsing: bool)
    requires |st| == |cs| && i <= |cs|
    requires ScanFrom(cs, st, i, seenUsing).outcome == Failed(NOT_IMPLEMENTED)
    ensures var p := ScanFrom(cs, st, i, seenUsing).processed;
      && i < p && Reached(cs, st, i, seenUsing, p - 1)
      && Entered(cs[p - 1]) && UsesUsing(st[p - 1])
      && UsingsBetween(st, i, p - 1) + Count(seenUsing) == 1
    decreases |cs| - i
  {
    if Clean(cs[i], st[i]) && !(UsesUsing(st[i]) && seenUsing) {
      var p := ScanFrom(cs, st, i, seenUsing).processed;
      ScanRejectsUsing(cs, st, i + 1, seenUsing || UsesUsing(st[i]));
      ReachedStep(cs, st, i, seenUsing, p - 1);
    }
  }

  /** A walk failing with an internal error stopped at an entry that is not a table element,
      before touching it, or at a cross or comma join that already had children. */
  lemma {:induction false} ScanFailsInternally(cs: seq<TablesChild>, st: seq<Option<JoinState>>, i: nat, seenUsing: bool)
    requires |st| == |cs| && i <= |cs|
    requires ScanFrom(cs, st, i, seenUsing).outcome == Failed(LOGICAL_ERROR)
    ensures var p := ScanFrom(cs, st, i, seenUsing).processed;
      || (Reached(cs, st, i, seenUsing, p) && p < |cs| && !cs[p].Element?)
      || (i < p && Reached(cs, st, i, seenUsing, p - 1) && Entered(cs[p - 1]) && CrossWithChildren(st[p - 1]))
    decreases |cs| - i
  {
    if Clean(cs[i], st[i]) && !(UsesUsing(st[i]) && seenUsing) {
      var p := ScanFrom(cs, st, i, seenUsing).processed;
      ScanFailsInternally(cs, st, i + 1, seenUsing || UsesUsing(st[i]));
      ReachedStep(cs, st, i, seenUsing, p);
      if p > i + 1 {
        ReachedStep(cs, st, i, seenUsing, p - 1);
      }
    }
  }

  /** A list in which every entry can be gone past is walked to the end. */
  lemma CompletedIff(cs: seq<TablesChild>, st: seq<Option<JoinState>>)
    requires |st| == |cs|
    ensures ScanFrom(cs, st, 0, false).outcome == Completed <==> Reached(cs, st, 0, false, |cs|)
  {
    if ScanFrom(cs, st, 0, false).outcome == Completed {
      ScanCompletes(cs, st, 0, false);
    }
    if Reached(cs, st, 0, false, |cs|) {
      ScanPast(cs, st, 0, false, |cs|);
    }
  }

  /** The first ARRAY JOIN entry the walk reaches ends it with nothing to rewrite, after
      normalising that entry and every earlier one. */
  lemma ArrayJoinSkips(cs: seq<TablesChild>, st: seq<Option<JoinState>>, k: nat)
    requires |st| == |cs| && Reached(cs, st, 0, false, k) && k < |cs|
    requires cs[k].Element? && cs[k].element.arrayJoin.Some?
    ensures ScanFrom(cs, st, 0, false) == Scanned(Skipped, k + 1)
  {
    ScanPast(cs, st, 0, false, k);
  }

  /** Reaching a second entry with USING is an unsupported query. */
  lemma SecondUsingThrows(cs: seq<TablesChild>, st: seq<Option<JoinState>>, k: nat)
    requires |st| == |cs| && Reached(cs, st, 0, false, k) && k < |cs|
    requires Entered(cs[k]) && UsesUsing(st[k]) && UsingsBetween(st, 0, k) == 1
    ensures ScanFrom(cs, st, 0, false) == Scanned(Failed(NOT_IMPLEMENTED), k + 1)
  {
    ScanPast(cs, st, 0, false, k);
  }

  /** Reaching a cross or comma join that already has children is an internal error, unless
      the entry is a second USING, which is reported first. */
  lemma CrossWithChildrenThrows(cs: seq<TablesChild>, st: seq<Option<JoinState>>, k: nat)
    requires |st| == |cs| && Reached(cs, st, 0, false, k) && k < |cs|
    requires Entered(cs[k]) && CrossWithChildren(st[k]) && !(UsesUsing(st[k]) && UsingsBetween(st, 0, k) == 1)
    ensures ScanFrom(cs, st, 0, false) == Scanned(Failed(LOGICAL_ERROR), k + 1)
  {
    ScanPast(cs, st, 0, false, k);
  }

  /** Reaching an entry that is not a table element is an internal error, before that entry
      is touched. */
  lemma NotAnElementThrows(cs: seq<TablesChild>, st: seq<Option<JoinState>>, k: nat)
    requires |st| == |cs| && Reached(cs, st, 0, false, k) && k < |cs| && !cs[k].Element?
    ensures ScanFrom(cs, st, 0, false) == Scanned(Failed(LOGICAL_ERROR), k)
  {
    ScanPast(cs, st, 0, false, k);
  }

  /** A completed walk has gone past a table element at every position of a list of at
      least two entries. */
  lemma CompletedAllElements(cs: seq<TablesChild>, st: seq<Option<JoinState>>)
    requires |st| == |cs|
    ensures CollectTables(cs, st).outcome == Completed ==> 2 <= |cs| && AllElements(cs)
    ensures CollectTables(cs, st).outcome == Completed ==> forall k :: 0 <= k < |cs| ==> Clean(cs[k], st[k])
  {
    CompletedIff(cs, st);
  }

  /** The walk looks at a join state only for its USING list and for the children of a
      cross or comma join, so states that agree on those are walked alike. */
  lemma {:induction false} ScanAgrees(cs: seq<TablesChild>, st1: seq<Option<JoinState>>, st2: seq<Option<JoinState>>, i: nat, seenUsing: bool)
    requires |st1| == |cs| && |st2| == |cs| && i <= |cs|
    requires forall k :: 0 <= k < |cs| ==>
      UsesUsing(st1[k]) == UsesUsing(st2[k]) && CrossWithChildren(st1[k]) == CrossWithChildren(st2[k])
    ensures ScanFrom(cs, st1, i, seenUsing) == ScanFrom(cs, st2, i, seenUsing)
    decreases |cs| - i
  {
    if i < |cs| {
      ScanAgrees(cs, st1, st2, i + 1, seenUsing || UsesUsing(st1[i]));
    }
  }

  /** Builds the joined elements of the query's FROM list, normalising comma joins in place
      as it goes; gives back no elements when there is nothing to rewrite. */
  method GetTables(select: SelectQuery) returns (r: Result<seq<JoinedElement>>)
    requires Distinct(Joins(ChildrenOf(select)))
    modifies Objects(Joins(ChildrenOf(select)))
    ensures States(Joins(ChildrenOf(select))) ==
              Normalized(old(States(Joins(ChildrenOf(select)))), CollectTables(ChildrenOf(select), old(States(Joins(ChildrenOf(select))))).processed)
    ensures CollectTables(ChildrenOf(select), old(States(Joins(ChildrenOf(select))))).outcome.Failed? ==>
              r == Thrown(CollectTables(ChildrenOf(select), old(States(Joins(ChildrenOf(select))))).outcome.code)
    ensures CollectTables(ChildrenOf(select), old(States(Joins(ChildrenOf(select))))).outcome == Skipped ==> r == Ok([])
    ensures CollectTables(ChildrenOf(select), old(States(Joins(ChildrenOf(select))))).outcome == Completed ==>
              AllElements(ChildrenOf(select)) && r == Ok(ExpectedJoined(ChildrenOf(select), old(States(Joins(ChildrenOf(select))))))
  {
    if select.tables.None? || !select.tables.value.TablesInSelectQuery? {
      return Ok([]);
    }
    var cs := select.tables.value.children;
    if |cs| < 2 {
      return Ok([]);
    }
    r := WalkTables(cs);
  }

  /** The loop of GetTables over a list of at least two entries. */
  method WalkTables(cs: seq<TablesChild>) returns (r: Result<seq<JoinedElement>>)
    requires Distinct(Joins(cs))
    modifies Objects(Joins(cs))
    ensures States(Joins(cs)) == Normalized(old(States(Joins(cs))), ScanFrom(cs, old(States(Joins(cs))), 0, false).processed)
    ensures ScanFrom(cs, old(States(Joins(cs))), 0, false).outcome.Failed? ==>
              r == Thrown(ScanFrom(cs, old(States(Joins(cs))), 0, false).outcome.code)
    ensures ScanFrom(cs, old(States(Joins(cs))), 0, false).outcome == Skipped ==> r == Ok([])
    ensures ScanFrom(cs, old(States(Joins(cs))), 0, false).outcome == Completed ==>
              AllElements(cs) && r == Ok(ExpectedJoined(cs, old(States(Joins(cs)))))
  {
    ghost var js := Joins(cs);
    ghost var st := States(js);
    var joined: seq<JoinedElement> := [];
    var hasUsing := false;
    var i := 0;
    while i < |cs|
      invariant 0 <= i <= |cs|
      invariant States(js) == Normalized(st, i)
      invariant ScanFrom(cs, st, 0, false) == ScanFrom(cs, st, i, hasUsing)
      invariant |joined| == i
      invariant forall k :: 0 <= k < i ==> cs[k].Element? && joined[k] == JoinedElement(cs[k].element, KindOf(st[k]))
    {
      var child := cs[i];
      if !child.Element? {
        return Thrown(LOGICAL_ERROR);
      }
      StateAt(js, i);
      var t := MakeJoinedElement(child.element);
      joined := joined + [t];
      NormalizeEntry(t, js, i, Normalized(st, i));
      NormalizedStep(st, i);
      StateAt(js, i);
      if t.element.arrayJoin.Some? {
        return Ok([]);
      }
      ghost var seenBefore := hasUsing;
      if t.HasUsing() {
        if hasUsing {
          return Thrown(NOT_IMPLEMENTED);
        }
        hasUsing := true;
      }
      var join := t.Join();
      if join != null && IsCrossOrComma(join.kind) {
        if join.children != [] {
          return Thrown(LOGICAL_ERROR);
        }
      }
      ScanFromStep(cs, st, i, seenBefore);
      i := i + 1;
    }
    assert joined == ExpectedJoined(cs, st);
    return Ok(joined);
  }
}
