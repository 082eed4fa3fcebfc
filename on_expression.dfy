/** Moving WHERE equalities into JOIN ... ON: the safety filter that decides whether a
    top-level conjunct may be used at all, the all-or-nothing bucketing of cross-table
    equalities by the FROM entry they attach to, and the combination of a bucket into one
    condition. */
module OnExpression {
  import opened Ast
  import opened JoinedElements

  // ---------------------------------------------------------------------------------------
  // Safety filter

  /** Some identifier without a qualifier, anywhere inside `e`, has a name that is an alias. */
  predicate MentionsAlias(e: Expr, aliases: Aliases) {
    match e
    case Identifier(q, n) => q.None? && n in aliases
    case Function(_, ExpressionList(args)) => exists i :: 0 <= i < |args| && MentionsAlias(args[i], aliases)
    case _ => false
  }

  /** Some identifier of the list is short and its name is an alias. */
  predicate AnyAliased(idents: seq<Expr>, aliases: Aliases) {
    exists k :: 0 <= k < |idents| && IsShortIdentifier(idents[k]) && idents[k].name in aliases
  }

  lemma AnyAliasedConcat(a: seq<Expr>, b: seq<Expr>, aliases: Aliases)
    ensures AnyAliased(a + b, aliases) <==> AnyAliased(a, aliases) || AnyAliased(b, aliases)
  {
    if AnyAliased(a + b, aliases) {
      var k :| 0 <= k < |a + b| && IsShortIdentifier((a + b)[k]) && (a + b)[k].name in aliases;
      if k >= |a| {
        assert (a + b)[k] == b[k - |a|];
      }
    }
    if AnyAliased(a, aliases) {
      var k :| 0 <= k < |a| && IsShortIdentifier(a[k]) && a[k].name in aliases;
      assert (a + b)[k] == a[k];
    }
    if AnyAliased(b, aliases) {
      var k :| 0 <= k < |b| && IsShortIdentifier(b[k]) && b[k].name in aliases;
      assert (a + b)[|a| + k] == b[k];
    }
  }

  /** The identifiers the collector finds hold an alias exactly when the tree mentions one. */
  lemma {:induction false} CollectedAliasIff(e: Expr, aliases: Aliases)
    ensures AnyAliased(CollectIdentifiers(e), aliases) <==> MentionsAlias(e, aliases)
    decreases e, 1
  {
    match e
    case Identifier(q, n) =>
      assert CollectIdentifiers(e)[0] == e;
    case Function(_, ExpressionList(args)) =>
      CollectAllAliasIff(args, aliases);
    case _ =>
  }

  lemma {:induction false} CollectAllAliasIff(es: seq<Expr>, aliases: Aliases)
    ensures AnyAliased(CollectAll(es), aliases) <==> exists i :: 0 <= i < |es| && MentionsAlias(es[i], aliases)
    decreases es, 0
  {
    if es != [] {
      CollectedAliasIff(es[0], aliases);
      CollectAllAliasIff(es[1..], aliases);
      AnyAliasedConcat(CollectIdentifiers(es[0]), CollectAll(es[1..]), aliases);
      if exists i :: 0 <= i < |es| && MentionsAlias(es[i], aliases) {
        var i :| 0 <= i < |es| && MentionsAlias(es[i], aliases);
        if i > 0 {
          assert es[1..][i - 1] == es[i];
        }
      }
      if exists i :: 0 <= i < |es[1..]| && MentionsAlias(es[1..][i], aliases) {
        var i :| 0 <= i < |es[1..]| && MentionsAlias(es[1..][i], aliases);
        assert es[i + 1] == es[1..][i];
      }
    }
  }

  /** Whether a top-level WHERE conjunct may stay while others are copied into ON clauses:
      identifiers and literals always, a function call unless it mentions an alias name
      through a short identifier, anything else never. */
  function IsAllowedToRewriteCrossJoin(node: Expr, aliases: Aliases): (allowed: bool)
    ensures node.Function? ==> (allowed <==> !MentionsAlias(node, aliases))
    ensures node.Identifier? || node.Literal? ==> allowed
    ensures node.Subquery? ==> !allowed
  {
    if node.Function? then
      CollectedAliasIff(node, aliases);
      !AnyAliased(CollectIdentifiers(node), aliases)
    else
      node.Identifier? || node.Literal?
  }

  // ---------------------------------------------------------------------------------------
  // Bucketing of cross-table equalities

  /** Table membership of an expression, as the analyser resolves it against the tables and
      aliases of the query: the index of the one table all its identifiers belong to. */
  type Resolver = (Expr, seq<TableWithColumns>, Aliases) -> Option<nat>

  /** A resolver only answers with positions of the tables it is given. */
  ghost predicate WellBehaved(resolve: Resolver) {
    forall e, tables, aliases :: resolve(e, tables, aliases).Some? ==> resolve(e, tables, aliases).value < |tables|
  }

  function Max(a: nat, b: nat): nat {
    if a < b then b else a
  }

  predicate IsEquals(node: Expr) {
    node.Function? && node.name == "equals"
  }

  /** An `equals` call that does not have exactly two arguments. */
  predicate MalformedEquals(node: Expr) {
    IsEquals(node) && (node.arguments.NoArgumentList? || |node.arguments.children| != 2)
  }

  /** The FROM position a conjunct is moved to: for `l = r` with `l` and `r` belonging to two
      different tables, the later of the two. */
  function TargetOf(node: Expr, tables: seq<TableWithColumns>, aliases: Aliases, resolve: Resolver): (t: Option<nat>)
    requires WellBehaved(resolve)
    ensures t.Some? ==> 1 <= t.value < |tables|
    ensures t.Some? ==> IsEquals(node) && !MalformedEquals(node)
    ensures t.Some? ==>
      var left := resolve(node.arguments.children[0], tables, aliases);
      var right := resolve(node.arguments.children[1], tables, aliases);
      && left.Some? && right.Some? && left.value != right.value
      && t.value == Max(left.value, right.value)
  {
    if IsEquals(node) && node.arguments.ExpressionList? && |node.arguments.children| == 2 then
      var left := resolve(node.arguments.children[0], tables, aliases);
      var right := resolve(node.arguments.children[1], tables, aliases);
      if left.Some? && right.Some? && left.value != right.value then Some(Max(left.value, right.value)) else None
    else
      None
  }

  /** A conjunct that makes the whole synthesis give up. */
  predicate Disqualifies(node: Expr, st: seq<Option<JoinState>>, tables: seq<TableWithColumns>, aliases: Aliases, resolve: Resolver)
    requires WellBehaved(resolve) && |st| == |tables|
  {
    var t := TargetOf(node, tables, aliases, resolve);
    || MalformedEquals(node)
    || (t.Some? && !AcceptsOn(st[t.value]))
    || !IsAllowedToRewriteCrossJoin(node, aliases)
  }

  function Bucket(m: map<nat, seq<Expr>>, p: nat): seq<Expr> {
    if p in m then m[p] else []
  }

  /** The buckets after reading `conj` left to right, or None once a conjunct disqualifies. */
  function Bucketing(conj: seq<Expr>, st: seq<Option<JoinState>>, tables: seq<TableWithColumns>, aliases: Aliases, resolve: Resolver): (r: Option<map<nat, seq<Expr>>>)
    requires WellBehaved(resolve) && |st| == |tables|
    ensures r.Some? ==> forall p :: p in r.value ==> 1 <= p < |tables| && AcceptsOn(st[p]) && r.value[p] != []
  {
    if conj == [] then Some(map[])
    else
      var node := conj[|conj| - 1];
      match Bucketing(conj[..|conj| - 1], st, tables, aliases, resolve)
      case None => None
      case Some(m) =>
        if Disqualifies(node, st, tables, aliases, resolve) then None
        else
          var t := TargetOf(node, tables, aliases, resolve);
          if t.Some? then Some(m[t.value := Bucket(m, t.value) + [node]]) else Some(m)
  }

  /** The conjuncts that target position `p`, in their original order. */
  function Targeted(conj: seq<Expr>, p: nat, tables: seq<TableWithColumns>, aliases: Aliases, resolve: Resolver): seq<Expr>
    requires WellBehaved(resolve)
  {
    if conj == [] then []
    else
      var rest := Targeted(conj[..|conj| - 1], p, tables, aliases, resolve);
      if TargetOf(conj[|conj| - 1], tables, aliases, resolve) == Some(p) then rest + [conj[|conj| - 1]] else rest
  }

  /** The buckets the synthesis hands back: empty when it gave up. */
  function JoinOnMap(conj: seq<Expr>, st: seq<Option<JoinState>>, tables: seq<TableWithColumns>, aliases: Aliases, resolve: Resolver): map<nat, seq<Expr>>
    requires WellBehaved(resolve) && |st| == |tables|
  {
    match Bucketing(conj, st, tables, aliases, resolve)
    case None => map[]
    case Some(m) => m
  }

  /** All or nothing: the synthesis gives up exactly when one of the conjuncts disqualifies. */
  lemma {:induction false} BucketingFailsIff(conj: seq<Expr>, st: seq<Option<JoinState>>, tables: seq<TableWithColumns>, aliases: Aliases, resolve: Resolver)
    requires WellBehaved(resolve) && |st| == |tables|
    ensures Bucketing(conj, st, tables, aliases, resolve).None? <==>
            exists k :: 0 <= k < |conj| && Disqualifies(conj[k], st, tables, aliases, resolve)
  {
    if conj != [] {
      var init := conj[..|conj| - 1];
      BucketingFailsIff(init, st, tables, aliases, resolve);
      if exists k :: 0 <= k < |init| && Disqualifies(init[k], st, tables, aliases, resolve) {
        var k :| 0 <= k < |init| && Disqualifies(init[k], st, tables, aliases, resolve);
        assert conj[k] == init[k];
      }
      if exists k :: 0 <= k < |conj| && Disqualifies(conj[k], st, tables, aliases, resolve) {
        var k :| 0 <= k < |conj| && Disqualifies(conj[k], st, tables, aliases, resolve);
        if k < |init| {
          assert init[k] == conj[k];
        }
      }
    }
  }

  /** When the synthesis succeeds, bucket `p` holds exactly the conjuncts targeting `p`, in
      their original order, and only positions 1 .. |tables| - 1 have a bucket. */
  lemma {:induction false} BucketingContents(conj: seq<Expr>, st: seq<Option<JoinState>>, tables: seq<TableWithColumns>, aliases: Aliases, resolve: Resolver, m: map<nat, seq<Expr>>)
    requires WellBehaved(resolve) && |st| == |tables|
    requires Bucketing(conj, st, tables, aliases, resolve) == Some(m)
    ensures forall p :: Bucket(m, p) == Targeted(conj, p, tables, aliases, resolve)
    ensures forall p :: p in m <==> Targeted(conj, p, tables, aliases, resolve) != []
    ensures forall p :: p in m ==> 1 <= p < |tables|
  {
    if conj != [] {
      var init := conj[..|conj| - 1];
      var m0 := Bucketing(init, st, tables, aliases, resolve).value;
      BucketingContents(init, st, tables, aliases, resolve, m0);
    }
  }

  /** Every conjunct in a bucket is a cross-table equality from the WHERE list aimed at that bucket. */
  lemma {:induction false} TargetedMembers(conj: seq<Expr>, p: nat, tables: seq<TableWithColumns>, aliases: Aliases, resolve: Resolver)
    requires WellBehaved(resolve)
    ensures forall e :: e in Targeted(conj, p, tables, aliases, resolve) ==>
              e in conj && TargetOf(e, tables, aliases, resolve) == Some(p) && IsEquals(e)
  {
    if conj != [] {
      var init := conj[..|conj| - 1];
      TargetedMembers(init, p, tables, aliases, resolve);
      assert forall e :: e in init ==> e in conj;
    }
  }

  /** A bucket keeps the WHERE order: the conjuncts of a longer list that target a position
      are those of its first part followed by those of its second part. */
  lemma {:induction false} TargetedConcat(a: seq<Expr>, b: seq<Expr>, p: nat, tables: seq<TableWithColumns>, aliases: Aliases, resolve: Resolver)
    requires WellBehaved(resolve)
    ensures Targeted(a + b, p, tables, aliases, resolve) == Targeted(a, p, tables, aliases, resolve) + Targeted(b, p, tables, aliases, resolve)
    decreases |b|
  {
    if b == [] {
      assert a + b == a;
    } else {
      var init := b[..|b| - 1];
      TargetedConcat(a, init, p, tables, aliases, resolve);
      assert (a + b)[..|a + b| - 1] == a + init;
      assert (a + b)[|a + b| - 1] == b[|b| - 1];
    }
  }

  /** Two successful syntheses over the same conjuncts agree, whatever the join states:
      the states only decide whether the synthesis gives up. */
  lemma BucketingAgrees(conj: seq<Expr>, st1: seq<Option<JoinState>>, st2: seq<Option<JoinState>>, tables: seq<TableWithColumns>, aliases: Aliases, resolve: Resolver)
    requires WellBehaved(resolve) && |st1| == |tables| && |st2| == |tables|
    requires Bucketing(conj, st1, tables, aliases, resolve).Some?
    requires Bucketing(conj, st2, tables, aliases, resolve).Some?
    ensures Bucketing(conj, st1, tables, aliases, resolve) == Bucketing(conj, st2, tables, aliases, resolve)
  {
    var m1 := Bucketing(conj, st1, tables, aliases, resolve).value;
    var m2 := Bucketing(conj, st2, tables, aliases, resolve).value;
    BucketingContents(conj, st1, tables, aliases, resolve, m1);
    BucketingContents(conj, st2, tables, aliases, resolve, m2);
    assert m1.Keys == m2.Keys;
    forall p | p in m1 ensures m1[p] == m2[p] {
      assert Bucket(m1, p) == Bucket(m2, p);
    }
  }

  /** Synthesis that succeeds against states accepting fewer conditions also succeeds, with
      the same buckets, against states accepting more. */
  lemma BucketingMonotone(conj: seq<Expr>, more: seq<Option<JoinState>>, fewer: seq<Option<JoinState>>, tables: seq<TableWithColumns>, aliases: Aliases, resolve: Resolver)
    requires WellBehaved(resolve) && |more| == |tables| && |fewer| == |tables|
    requires forall k :: 0 <= k < |tables| && AcceptsOn(fewer[k]) ==> AcceptsOn(more[k])
    requires Bucketing(conj, fewer, tables, aliases, resolve).Some?
    ensures Bucketing(conj, more, tables, aliases, resolve) == Bucketing(conj, fewer, tables, aliases, resolve)
  {
    BucketingFailsIff(conj, fewer, tables, aliases, resolve);
    BucketingFailsIff(conj, more, tables, aliases, resolve);
    BucketingAgrees(conj, more, fewer, tables, aliases, resolve);
  }

  /** Against states accepting fewer conditions the synthesis hands back no bucket that it
      would not hand back against states accepting more. */
  lemma JoinOnMapMonotone(conj: seq<Expr>, more: seq<Option<JoinState>>, fewer: seq<Option<JoinState>>, tables: seq<TableWithColumns>, aliases: Aliases, resolve: Resolver)
    requires WellBehaved(resolve) && |more| == |tables| && |fewer| == |tables|
    requires forall k :: 0 <= k < |tables| && AcceptsOn(fewer[k]) ==> AcceptsOn(more[k])
    ensures forall p :: p in JoinOnMap(conj, fewer, tables, aliases, resolve) ==> p in JoinOnMap(conj, more, tables, aliases, resolve)
  {
    if Bucketing(conj, fewer, tables, aliases, resolve).Some? {
      BucketingMonotone(conj, more, fewer, tables, aliases, resolve);
    }
  }

  /** Collects, per FROM position, the WHERE conjuncts to copy into that entry's ON clause;
      gives back no buckets at all as soon as one conjunct disqualifies. */
  method MoveExpressionToJoinOn(ast: Expr, joined: seq<JoinedElement>, tables: seq<TableWithColumns>, aliases: Aliases, resolve: Resolver)
    returns (m: map<nat, seq<Expr>>)
    requires WellBehaved(resolve)
    requires |joined| == |tables|
    ensures m == JoinOnMap(SplitConjunctions(ast), States(JoinsOfElements(joined)), tables, aliases, resolve)
  {
    var conj := SplitConjunctions(ast);
    ghost var st := States(JoinsOfElements(joined));
    ObjectsOf(JoinsOfElements(joined));
    m := map[];
    var i := 0;
    while i < |conj|
      invariant 0 <= i <= |conj|
      invariant Bucketing(conj[..i], st, tables, aliases, resolve) == Some(m)
    {
      var node := conj[i];
      if node.Function? && node.name == "equals" {
        if node.arguments.NoArgumentList? || |node.arguments.children| != 2 {
          GiveUp(conj, i, st, tables, aliases, resolve);
          return map[];
        }
        var leftPos := resolve(node.arguments.children[0], tables, aliases);
        var rightPos := resolve(node.arguments.children[1], tables, aliases);
        if leftPos.Some? && rightPos.Some? && leftPos.value != rightPos.value {
          var tablePos := Max(leftPos.value, rightPos.value);
          StateAt(JoinsOfElements(joined), tablePos);
          if joined[tablePos].CanAttachOnExpression() {
            m := m[tablePos := Bucket(m, tablePos) + [node]];
          } else {
            GiveUp(conj, i, st, tables, aliases, resolve);
            return map[];
          }
        }
      }
      if !IsAllowedToRewriteCrossJoin(node, aliases) {
        GiveUp(conj, i, st, tables, aliases, resolve);
        return map[];
      }
      BucketingStep(conj, i, st, tables, aliases, resolve);
      i := i + 1;
    }
    assert conj[..i] == conj;
  }

  /** One more conjunct that does not disqualify extends the buckets read so far. */
  lemma BucketingStep(conj: seq<Expr>, i: nat, st: seq<Option<JoinState>>, tables: seq<TableWithColumns>, aliases: Aliases, resolve: Resolver)
    requires WellBehaved(resolve) && |st| == |tables| && i < |conj|
    requires Bucketing(conj[..i], st, tables, aliases, resolve).Some?
    requires !Disqualifies(conj[i], st, tables, aliases, resolve)
    ensures var m := Bucketing(conj[..i], st, tables, aliases, resolve).value;
            var t := TargetOf(conj[i], tables, aliases, resolve);
            Bucketing(conj[..i + 1], st, tables, aliases, resolve) ==
              Some(if t.Some? then m[t.value := Bucket(m, t.value) + [conj[i]]] else m)
  {
    assert conj[..i + 1][..i] == conj[..i];
    assert conj[..i + 1][i] == conj[i];
  }

  lemma GiveUp(conj: seq<Expr>, i: nat, st: seq<Option<JoinState>>, tables: seq<TableWithColumns>, aliases: Aliases, resolve: Resolver)
    requires WellBehaved(resolve) && |st| == |tables|
    requires i < |conj| && Disqualifies(conj[i], st, tables, aliases, resolve)
    ensures JoinOnMap(conj, st, tables, aliases, resolve) == map[]
  {
    BucketingFailsIff(conj, st, tables, aliases, resolve);
  }

  // ---------------------------------------------------------------------------------------
  // Combining a bucket

  /** The ON condition for a bucket: its only conjunct, or the `and` of all of them in order. */
  function MakeOnExpression(expressions: seq<Expr>): (on: Expr)
    ensures |expressions| == 1 ==> on == expressions[0]
    ensures |expressions| != 1 ==> IsAnd(on) && on.arguments.children == expressions
  {
    if |expressions| == 1 then expressions[0] else Function("and", ExpressionList(expressions))
  }

  lemma {:induction false} SplitAllOfConjuncts(es: seq<Expr>)
    requires forall e :: e in es ==> !IsAnd(e)
    ensures SplitAll(es) == es
  {
    if es != [] {
      SplitAllOfConjuncts(es[1..]);
    }
  }

  /** Splitting the combined condition gives the bucket back, in the same order: the ON
      clause is exactly the conjunction of the bucketed WHERE conjuncts. */
  lemma SplitMakeOnExpression(expressions: seq<Expr>)
    requires forall e :: e in expressions ==> !IsAnd(e)
    ensures SplitConjunctions(MakeOnExpression(expressions)) == expressions
  {
    if |expressions| != 1 {
      SplitAllOfConjuncts(expressions);
    }
  }

  /** Every bucket the synthesis produces can be recovered from its combined condition. */
  lemma BucketRoundTrip(where: Expr, st: seq<Option<JoinState>>, tables: seq<TableWithColumns>, aliases: Aliases, resolve: Resolver, p: nat)
    requires WellBehaved(resolve) && |st| == |tables|
    requires p in JoinOnMap(SplitConjunctions(where), st, tables, aliases, resolve)
    ensures var bucket := JoinOnMap(SplitConjunctions(where), st, tables, aliases, resolve)[p];
            bucket != [] && SplitConjunctions(MakeOnExpression(bucket)) == bucket
  {
    var conj := SplitConjunctions(where);
    var m := Bucketing(conj, st, tables, aliases, resolve).value;
    BucketingContents(conj, st, tables, aliases, resolve, m);
    TargetedMembers(conj, p, tables, aliases, resolve);
    SplitMakeOnExpression(m[p]);
  }
}
