/** Decomposition of a match on a tuple expression into nested matches on
    one element at a time: the cases are grouped by the first sub-pattern of
    their tuple pattern, the outer match tests the tuple's first element
    with one arm per group, and each arm's body is a match of the remaining
    elements against the rest of the group's patterns, decomposed in turn. */
module TupleMatch {
  import opened Types
  import opened Ir
  import opened Hir

  /** A group of the decomposition: the first sub-pattern shared by its cases,
      and the cases with that sub-pattern removed, in the original order. */
  datatype Group = Group(key: Pattern, cases: seq<Case>)

  /** The pattern that remains of a tuple pattern once its first sub-pattern
      is removed: the last one itself when only one remains, otherwise a
      tuple of the rest. */
  function RestPattern(rest: seq<Pattern>): (r: Pattern)
    ensures |rest| != 1 ==> r == TuplePat(Multiple(rest))
    ensures |rest| == 1 ==> r == rest[0]
  {
    if |rest| == 1 then rest[0] else TuplePat(Multiple(rest))
  }

  /** What one case contributes to the grouping, from the first pattern of
      its arm (the alternatives after it are not looked at): nothing for a
      wildcard or a tuple pattern with a `..` rest, the first sub-pattern and
      the case with it removed for a plain tuple pattern. A missing pattern,
      a pattern that is neither a wildcard nor a tuple, and an empty tuple
      pattern are internal errors. */
  function Contribution(c: Case): (r: Outcome<Option<(Pattern, Case)>>)
    ensures r.Ice? <==>
      || |c.patterns| == 0
      || (!c.patterns[0].Wildcard? && !c.patterns[0].TuplePat?)
      || (c.patterns[0].TuplePat? && c.patterns[0].items.Multiple? && |c.patterns[0].items.patterns| == 0)
    ensures r == Ok(None) <==>
      |c.patterns| > 0 && (c.patterns[0].Wildcard? || (c.patterns[0].TuplePat? && c.patterns[0].items.Ranged?))
    ensures r.Ok? && r.value.Some? ==>
      var ps := c.patterns[0].items.patterns;
      && r.value.value.0 == ps[0]
      && r.value.value.1 == Case(c.id, [RestPattern(ps[1..])], c.body)
  {
    if |c.patterns| == 0 then Ice("match arm without a pattern")
    else
      var pat := c.patterns[0];
      if pat.Wildcard? then Ok(None)
      else if !pat.TuplePat? then Ice("pattern of a tuple match is not a tuple pattern")
      else
        match pat.items
        case Ranged(_, _) => Ok(None)
        case Multiple(ps) =>
          if |ps| == 0 then Ice("empty tuple pattern")
          else Ok(Some((ps[0], Case(c.id, [RestPattern(ps[1..])], c.body))))
  }

  /** The cases of the group with the given key, none if there is no such
      group. */
  function Lookup(gs: seq<Group>, key: Pattern): seq<Case> {
    if gs == [] then []
    else if gs[0].key == key then gs[0].cases
    else Lookup(gs[1..], key)
  }

  predicate DistinctKeys(gs: seq<Group>) {
    forall i, j :: 0 <= i < j < |gs| ==> gs[i].key != gs[j].key
  }

  predicate NonEmptyGroups(gs: seq<Group>) {
    forall i :: 0 <= i < |gs| ==> gs[i].cases != []
  }

  /** Appending a case to the group of its key, opening a new group at the
      end for a key not seen before. */
  function Insert(gs: seq<Group>, key: Pattern, c: Case): (r: seq<Group>)
    ensures |r| == |gs| || |r| == |gs| + 1
  {
    if gs == [] then [Group(key, [c])]
    else if gs[0].key == key then [Group(key, gs[0].cases + [c])] + gs[1..]
    else [gs[0]] + Insert(gs[1..], key, c)
  }

  /** The keys of the groups. */
  function Keys(gs: seq<Group>): set<Pattern> {
    if gs == [] then {} else {gs[0].key} + Keys(gs[1..])
  }

  lemma {:induction false} KeysHold(gs: seq<Group>, j: nat)
    requires j < |gs|
    ensures gs[j].key in Keys(gs)
  {
    if j > 0 {
      KeysHold(gs[1..], j - 1);
    }
  }

  lemma {:induction false} InsertKeys(gs: seq<Group>, key: Pattern, c: Case)
    ensures Keys(Insert(gs, key, c)) == Keys(gs) + {key}
  {
    if gs != [] && gs[0].key != key {
      InsertKeys(gs[1..], key, c);
    }
  }

  /** Inserting keeps the keys distinct and the groups non-empty, and adds
      the case at the end of its key's group and nowhere else. */
  lemma {:induction false} InsertLookup(gs: seq<Group>, key: Pattern, c: Case)
    requires DistinctKeys(gs) && NonEmptyGroups(gs)
    ensures DistinctKeys(Insert(gs, key, c)) && NonEmptyGroups(Insert(gs, key, c))
    ensures forall k :: Lookup(Insert(gs, key, c), k) == Lookup(gs, k) + (if k == key then [c] else [])
  {
    if gs != [] && gs[0].key != key {
      InsertLookup(gs[1..], key, c);
      var tail := Insert(gs[1..], key, c);
      InsertKeys(gs[1..], key, c);
      if gs[0].key in Keys(gs[1..]) {
        KeyAt(gs[1..], gs[0].key);
      }
      forall j | 0 <= j < |tail|
        ensures tail[j].key != gs[0].key
      {
        KeysHold(tail, j);
      }
    } else if gs != [] {
      LookupAbsent(gs[1..], key);
    }
  }

  /** A key of the groups is the key of one of them. */
  lemma {:induction false} KeyAt(gs: seq<Group>, key: Pattern)
    requires key in Keys(gs)
    ensures exists i :: 0 <= i < |gs| && gs[i].key == key
  {
    if gs[0].key != key {
      KeyAt(gs[1..], key);
      var i :| 0 <= i < |gs[1..]| && gs[1..][i].key == key;
      assert gs[i + 1].key == key;
    }
  }

  /** A key that no group has has no cases. */
  lemma {:induction false} LookupAbsent(gs: seq<Group>, key: Pattern)
    requires forall i :: 0 <= i < |gs| ==> gs[i].key != key
    ensures Lookup(gs, key) == []
  {
    if gs != [] {
      LookupAbsent(gs[1..], key);
    }
  }

  /** With distinct keys, a group's cases are what looking up its key finds. */
  lemma {:induction false} LookupKey(gs: seq<Group>, i: nat)
    requires DistinctKeys(gs) && i < |gs|
    ensures Lookup(gs, gs[i].key) == gs[i].cases
  {
    if i > 0 {
      LookupKey(gs[1..], i - 1);
    }
  }

  /** organize_tuple_patterns with the groups keyed by pattern equality, as
      the comments of the source describe them: the contributions of the
      cases, in order, inserted into their groups. */
  function Organized(cases: seq<Case>): (r: Outcome<seq<Group>>)
    ensures r.Ok? ==> |r.value| <= |cases|
  {
    if cases == [] then Ok([])
    else
      match Organized(cases[..|cases| - 1])
      case Ice(why) => Ice(why)
      case Ok(gs) =>
        match Contribution(cases[|cases| - 1])
        case Ice(why) => Ice(why)
        case Ok(None) => Ok(gs)
        case Ok(Some((key, c))) => Ok(Insert(gs, key, c))
  }

  /** Reference definition of one group: the contribution of every case
      whose first sub-pattern is `key`, in the order of the cases. */
  function Projection(cases: seq<Case>, key: Pattern): seq<Case> {
    if cases == [] then []
    else
      Projection(cases[..|cases| - 1], key) +
        match Contribution(cases[|cases| - 1])
        case Ok(Some((k, c))) => if k == key then [c] else []
        case _ => []
  }

  /** The grouping fails exactly when some case cannot contribute. */
  lemma {:induction false} OrganizedOk(cases: seq<Case>)
    ensures Organized(cases).Ok? <==> forall i :: 0 <= i < |cases| ==> !Contribution(cases[i]).Ice?
  {
    if cases != [] {
      var prefix := cases[..|cases| - 1];
      OrganizedOk(prefix);
      assert forall i :: 0 <= i < |prefix| ==> prefix[i] == cases[i];
    }
  }

  /** The groups have distinct keys and are never empty, and each key's
      group is exactly that key's projection of the cases: one group per
      distinct first sub-pattern, holding its cases in their original order. */
  lemma {:induction false} OrganizedGroups(cases: seq<Case>)
    requires Organized(cases).Ok?
    ensures DistinctKeys(Organized(cases).value) && NonEmptyGroups(Organized(cases).value)
    ensures forall k :: Lookup(Organized(cases).value, k) == Projection(cases, k)
  {
    if cases != [] {
      var prefix := cases[..|cases| - 1];
      OrganizedGroups(prefix);
      var gs := Organized(prefix).value;
      match Contribution(cases[|cases| - 1])
      case Ok(None) =>
      case Ok(Some((key, c))) =>
        InsertLookup(gs, key, c);
    }
  }

  /** A case whose first pattern is a wildcard may be removed from the
      match without changing the grouping. */
  lemma {:induction false} WildcardDropped(cases: seq<Case>, i: nat)
    requires i < |cases| && |cases[i].patterns| > 0 && cases[i].patterns[0].Wildcard?
    ensures Organized(cases) == Organized(cases[..i] + cases[i + 1..])
  {
    var n := |cases|;
    if i == n - 1 {
      assert cases[..i] + cases[i + 1..] == cases[..n - 1];
    } else {
      var without := cases[..i] + cases[i + 1..];
      WildcardDropped(cases[..n - 1], i);
      assert cases[..n - 1][..i] + cases[..n - 1][i + 1..] == without[..|without| - 1];
      assert without[|without| - 1] == cases[n - 1];
    }
  }

  /** organize_tuple_patterns as written: the groups are keyed by the
      address of a freshly cloned first sub-pattern, so looking a key up
      never finds an earlier group and every contributing case opens a group
      of its own. (The source orders these groups by address; the model
      keeps the order of the cases.) */
  function OrganizedByAddress(cases: seq<Case>): (r: Outcome<seq<Group>>)
    ensures r.Ok? ==> |r.value| <= |cases|
  {
    if cases == [] then Ok([])
    else
      match OrganizedByAddress(cases[..|cases| - 1])
      case Ice(why) => Ice(why)
      case Ok(gs) =>
        match Contribution(cases[|cases| - 1])
        case Ice(why) => Ice(why)
        case Ok(None) => Ok(gs)
        case Ok(Some((key, c))) => Ok(gs + [Group(key, [c])])
  }

  /** The contributions of the cases that contribute, in case order. */
  function Contributions(cases: seq<Case>): seq<(Pattern, Case)> {
    if cases == [] then []
    else
      Contributions(cases[..|cases| - 1]) +
        match Contribution(cases[|cases| - 1])
        case Ok(Some(kc)) => [kc]
        case _ => []
  }

  /** As written, every contributing case opens a group of its own: there
      are exactly as many groups as contributing cases, and group i holds
      the i-th contribution alone, under its first sub-pattern. */
  lemma {:induction false} AddressKeyedSingletons(cases: seq<Case>)
    requires OrganizedByAddress(cases).Ok?
    ensures var gs := OrganizedByAddress(cases).value;
      var cs := Contributions(cases);
      && |gs| == |cs|
      && forall i :: 0 <= i < |gs| ==> gs[i] == Group(cs[i].0, [cs[i].1])
  {
    if cases != [] {
      AddressKeyedSingletons(cases[..|cases| - 1]);
    }
  }

  /** `match (a, b) { (A, 1) => x, (A, 2) => y }`: keyed by address, the
      first element `A` heads two groups, so the outer match on `a` gets two
      arms with the same pattern and the second, holding `(A, 2)`, can never
      be taken; keyed by pattern, both cases share one group. */
  lemma AddressKeyedGroupsRepeat()
    ensures var a := PathPat(0);
      var cases := [Case(1, [TuplePat(Multiple([a, LiteralPat(1)]))], Leaf(10)),
                    Case(2, [TuplePat(Multiple([a, LiteralPat(2)]))], Leaf(11))];
      && OrganizedByAddress(cases) == Ok([Group(a, [Case(1, [LiteralPat(1)], Leaf(10))]),
                                          Group(a, [Case(2, [LiteralPat(2)], Leaf(11))])])
      && Organized(cases) == Ok([Group(a, [Case(1, [LiteralPat(1)], Leaf(10)), Case(2, [LiteralPat(2)], Leaf(11))])])
  {
    var a := PathPat(0);
    var cases := [Case(1, [TuplePat(Multiple([a, LiteralPat(1)]))], Leaf(10)),
                  Case(2, [TuplePat(Multiple([a, LiteralPat(2)]))], Leaf(11))];
    var first := cases[..1];
    assert first[..0] == [] && first[|first| - 1] == cases[0];
    assert OrganizedByAddress(first[..0]) == Ok([]) && Organized(first[..0]) == Ok([]);
    assert cases[..|cases| - 1] == first && cases[|cases| - 1] == cases[1];
    assert [a, LiteralPat(1)][1..] == [LiteralPat(1)];
    assert [a, LiteralPat(2)][1..] == [LiteralPat(2)];
    assert Contribution(cases[0]) == Ok(Some((a, Case(1, [LiteralPat(1)], Leaf(10)))));
    assert Contribution(cases[1]) == Ok(Some((a, Case(2, [LiteralPat(2)], Leaf(11)))));
    assert Organized(cases[..1]) == Ok([Group(a, [Case(1, [LiteralPat(1)], Leaf(10))])]);
    var g1 := Group(a, [Case(1, [LiteralPat(1)], Leaf(10))]);
    assert OrganizedByAddress(first) == Ok([] + [g1]);
    assert [] + [g1] == [g1];
    var c2 := Case(2, [LiteralPat(2)], Leaf(11));
    assert OrganizedByAddress(cases) == Ok([g1] + [Group(a, [c2])]);
    assert [g1] + [Group(a, [c2])] == [g1, Group(a, [c2])];
    assert Organized(cases) == Ok(Insert([g1], a, c2));
    assert [g1][1..] == [] && g1.cases + [c2] == [g1.cases[0], c2];
    assert Insert([g1], a, c2) == [Group(a, [g1.cases[0], c2])];
  }

  /** organize_tuple_patterns: the grouping built case by case. */
  method OrganizeTuplePatterns(cases: seq<Case>) returns (r: Outcome<seq<Group>>)
    ensures r == Organized(cases)
  {
    var groups: seq<Group> := [];
    var i := 0;
    while i < |cases|
      invariant 0 <= i <= |cases|
      invariant Organized(cases[..i]) == Ok(groups)
    {
      assert cases[..i + 1][..i] == cases[..i];
      assert cases[..i + 1][i] == cases[i];
      match Contribution(cases[i]) {
        case Ice(why) =>
          assert Organized(cases[..i + 1]) == Ice(why);
          PrefixIce(cases, i + 1);
          return Ice(why);
        case Ok(None) =>
        case Ok(Some((key, c))) =>
          groups := Insert(groups, key, c);
      }
      i := i + 1;
    }
    assert cases[..i] == cases;
    return Ok(groups);
  }

  /** A failure in a prefix of the cases is the failure of all of them. */
  lemma {:induction false} PrefixIce(cases: seq<Case>, n: nat)
    requires n <= |cases| && Organized(cases[..n]).Ice?
    ensures Organized(cases) == Organized(cases[..n])
  {
    if n < |cases| {
      assert cases[..|cases| - 1][..n] == cases[..n];
      PrefixIce(cases[..|cases| - 1], n);
    } else {
      assert cases[..n] == cases;
    }
  }

  /** A measure of an expression's nesting that decreases from a tuple to
      the tuple of its elements after the first, and to any of its elements. */
  function Width(e: Expr): (r: nat)
    decreases e
    ensures r >= 1
  {
    match e
    case TupleExpr(_, elems) => 1 + SumWidth(elems)
    case _ => 1
  }

  function SumWidth(es: seq<Expr>): nat
    decreases es
  {
    if es == [] then 0 else Width(es[0]) + SumWidth(es[1..])
  }

  /** The scrutinee of the inner matches: the tuple's second element when
      the tuple has two, the tuple of the elements after the first otherwise. */
  function Remaining(s: Expr): (r: Expr)
    requires s.TupleExpr? && |s.elems| > 1
    ensures Width(r) < Width(s)
  {
    assert s.elems[1..][1..] == s.elems[2..];
    assert SumWidth(s.elems) == Width(s.elems[0]) + SumWidth(s.elems[1..]);
    assert SumWidth(s.elems[1..]) == Width(s.elems[1]) + SumWidth(s.elems[2..]);
    if |s.elems| == 2 then s.elems[1] else TupleExpr(s.id, s.elems[1..])
  }

  /** The scrutinee a match on `e` ends up testing once decomposed: the
      first element of a tuple, and `e` itself otherwise. */
  function Head(e: Expr): Expr {
    if e.TupleExpr? && |e.elems| > 1 then e.elems[0] else e
  }

  /** The inner match of one group, before decomposition. */
  function InnerMatch(m: Expr, g: Group): Expr
    requires m.MatchExpr? && m.scrutinee.TupleExpr? && |m.scrutinee.elems| > 1
  {
    MatchExpr(m.id, Remaining(m.scrutinee), g.cases)
  }

  /** simplify_tuple_match: a match whose scrutinee is not a tuple
      expression is kept; a tuple scrutinee must have at least two elements,
      and the match becomes one on its first element with an arm per group,
      whose body is the decomposed match of the remaining elements against
      the group's cases. The outer and inner matches and the outer arms keep
      the id of the original match. */
  function Simplified(m: Expr): (r: Outcome<Expr>)
    requires m.MatchExpr?
    decreases Width(m.scrutinee)
    ensures !m.scrutinee.TupleExpr? ==> r == Ok(m)
    ensures m.scrutinee.TupleExpr? && (|m.scrutinee.elems| <= 1 || Organized(m.cases).Ice?) ==> r.Ice?
    ensures r.Ok? ==> r.value.MatchExpr? && r.value.id == m.id && r.value.scrutinee == Head(m.scrutinee)
    ensures r.Ok? && m.scrutinee.TupleExpr? ==>
      && |m.scrutinee.elems| > 1 && Organized(m.cases).Ok?
      && var gs := Organized(m.cases).value;
      && |r.value.cases| == |gs|
      && forall i :: 0 <= i < |gs| ==>
           && r.value.cases[i].id == m.id
           && r.value.cases[i].patterns == [gs[i].key]
           && r.value.cases[i].body.MatchExpr?
           && r.value.cases[i].body.id == m.id
           && r.value.cases[i].body.scrutinee == Head(Remaining(m.scrutinee))
           && (!Remaining(m.scrutinee).TupleExpr? ==> r.value.cases[i].body.cases == gs[i].cases)
  {
    if !m.scrutinee.TupleExpr? then Ok(m)
    else if |m.scrutinee.elems| <= 1 then Ice("tuple scrutinee with fewer than two elements")
    else
      match Organized(m.cases)
      case Ice(why) => Ice(why)
      case Ok(gs) =>
        var inners := seq(|gs|, i requires 0 <= i < |gs| => Simplified(InnerMatch(m, gs[i])));
        match Sequence(inners)
        case Ice(why) => Ice(why)
        case Ok(bodies) =>
          Ok(MatchExpr(m.id, m.scrutinee.elems[0], seq(|gs|, i requires 0 <= i < |gs| => Case(m.id, [gs[i].key], bodies[i]))))
  }

  /** The decomposed match has one arm per distinct first sub-pattern, and
      the body of the arm for `k` is the decomposition of the match of the
      remaining elements against exactly the cases whose first sub-pattern
      is `k`, with that sub-pattern removed, in their original order. */
  lemma SimplifiedArms(m: Expr)
    requires m.MatchExpr? && m.scrutinee.TupleExpr? && Simplified(m).Ok?
    ensures var r := Simplified(m).value;
      && (forall i, j :: 0 <= i < j < |r.cases| ==> r.cases[i].patterns != r.cases[j].patterns)
      && (forall i :: 0 <= i < |r.cases| ==>
            && |r.cases[i].patterns| == 1
            && Simplified(MatchExpr(m.id, Remaining(m.scrutinee), Projection(m.cases, r.cases[i].patterns[0])))
               == Ok(r.cases[i].body))
      && (forall k :: Projection(m.cases, k) != [] ==> exists i :: 0 <= i < |r.cases| && r.cases[i].patterns == [k])
  {
    var r := Simplified(m).value;
    var gs := Organized(m.cases).value;
    OrganizedGroups(m.cases);
    forall i | 0 <= i < |r.cases|
      ensures Simplified(MatchExpr(m.id, Remaining(m.scrutinee), Projection(m.cases, r.cases[i].patterns[0])))
              == Ok(r.cases[i].body)
    {
      LookupKey(gs, i);
      var inners := seq(|gs|, j requires 0 <= j < |gs| => Simplified(InnerMatch(m, gs[j])));
      assert inners[i] == Simplified(InnerMatch(m, gs[i]));
    }
    forall k | Projection(m.cases, k) != []
      ensures exists i :: 0 <= i < |r.cases| && r.cases[i].patterns == [k]
    {
      if forall i :: 0 <= i < |gs| ==> gs[i].key != k {
        LookupAbsent(gs, k);
        assert false;
      }
      var i :| 0 <= i < |gs| && gs[i].key == k;
      assert r.cases[i].patterns == [k];
    }
  }

  /** simplify_tuple_match: the arms built one group at a time, each inner
      match decomposed by a recursive call. */
  method SimplifyTupleMatch(m: Expr) returns (r: Outcome<Expr>)
    requires m.MatchExpr?
    decreases Width(m.scrutinee)
    ensures r == Simplified(m)
  {
    if !m.scrutinee.TupleExpr? {
      return Ok(m);
    }
    var tuple := m.scrutinee;
    if |tuple.elems| <= 1 {
      return Ice("tuple scrutinee with fewer than two elements");
    }
    var head := tuple.elems[0];
    var organized := OrganizeTuplePatterns(m.cases);
    if organized.Ice? {
      return Ice(organized.why);
    }
    var gs := organized.value;
    ghost var inners := seq(|gs|, i requires 0 <= i < |gs| => Simplified(InnerMatch(m, gs[i])));
    var cases: seq<Case> := [];
    var i := 0;
    while i < |gs|
      invariant 0 <= i <= |gs|
      invariant |cases| == i
      invariant forall j :: 0 <= j < i ==> inners[j].Ok? && cases[j] == Case(m.id, [gs[j].key], inners[j].value)
    {
      var inner := SimplifyTupleMatch(InnerMatch(m, gs[i]));
      if inner.Ice? {
        SequenceFirstIce(inners, i);
        return Ice(inner.why);
      }
      cases := cases + [Case(m.id, [gs[i].key], inner.value)];
      i := i + 1;
    }
    assert Sequence(inners).Ok?;
    assert cases == seq(|gs|, j requires 0 <= j < |gs| => Case(m.id, [gs[j].key], Sequence(inners).value[j]));
    return Ok(MatchExpr(m.id, head, cases));
  }
}
