/**
 What the council-member merge guarantees, proved about `AdminForms.Merged`,
 the state the `Merge` procedure produces.
 */
module MergeProperties {
  import opened Models
  import opened AdminForms

  // ---------------------------------------------------------------------
  // Small facts about the building blocks
  // ---------------------------------------------------------------------

  lemma ElementsCons(order: seq<MemberId>)
    requires order != []
    ensures Elements(order) == {order[0]} + Elements(order[1..])
  {
    forall m ensures m in Elements(order) <==> m == order[0] || m in Elements(order[1..]) {
      if m in order && m != order[0] {
        var k :| 0 <= k < |order| && order[k] == m;
        assert order[1..][k - 1] == m;
      }
    }
  }

  lemma ElementsEmpty(order: seq<MemberId>)
    ensures Elements(order) == {} ==> order == []
  {
    if order != [] {
      assert order[0] in Elements(order);
    }
  }

  lemma AliasNamesUnion(s: Store, a: set<MemberId>, b: set<MemberId>)
    ensures AliasNames(s, a + b) == AliasNames(s, a) + AliasNames(s, b)
  {
  }

  /** A store that agrees with `s` on every alias row owned by a member of `ms`
      and moves no other row into `ms` has the same alias names for `ms`. */
  lemma AliasNamesFrame(s: Store, s': Store, ms: set<MemberId>)
    requires s'.aliases.Keys == s.aliases.Keys
    requires forall r | r in s.aliases && (s.aliases[r].member in ms || s'.aliases[r].member in ms) :: s'.aliases[r] == s.aliases[r]
    ensures AliasNames(s', ms) == AliasNames(s, ms)
  {
    forall n | n in AliasNames(s', ms) ensures n in AliasNames(s, ms) {
      var r :| r in s'.aliases && s'.aliases[r].member in ms && s'.aliases[r].name == n;
      assert s.aliases[r] == s'.aliases[r];
    }
    forall n | n in AliasNames(s, ms) ensures n in AliasNames(s', ms) {
      var r :| r in s.aliases && s.aliases[r].member in ms && s.aliases[r].name == n;
      assert s.aliases[r] == s'.aliases[r];
    }
  }

  lemma ReassignThenAll(owner: map<RowId, MemberId>, m: MemberId, rest: set<MemberId>, to: MemberId)
    ensures ReassignAll(Reassign(owner, m, to), rest, to) == ReassignAll(owner, {m} + rest, to)
  {
  }

  // ---------------------------------------------------------------------
  // The loop
  // ---------------------------------------------------------------------

  /** The loop keeps the member set and repoints every tenure and vote row of a
      visited member to the primary, whatever the seen names. */
  lemma {:induction false} FoldOwners(s: Store, primary: MemberId, order: seq<MemberId>, seen: set<string>)
    ensures var u := Fold(s, primary, order, seen);
      && u.members == s.members
      && u.tenures == ReassignAll(s.tenures, Elements(order), primary)
      && u.votes == ReassignAll(s.votes, Elements(order), primary)
    decreases |order|
  {
    if order == [] {
      assert Elements(order) == {};
    } else {
      var m := order[0];
      FoldOwners(Step(s, primary, m, seen), primary, order[1..], seen + AliasNames(s, {m}));
      ElementsCons(order);
      ReassignThenAll(s.tenures, m, Elements(order[1..]), primary);
      ReassignThenAll(s.votes, m, Elements(order[1..]), primary);
    }
  }

  /** The loop adds to the primary's sponsorships the legislation of every
      visited member and removes no pair. */
  lemma {:induction false} FoldSponsors(s: Store, primary: MemberId, order: seq<MemberId>, seen: set<string>)
    requires primary !in order
    ensures Fold(s, primary, order, seen).sponsors == WithSponsor(s.sponsors, Legislation(s, Elements(order)), primary)
    decreases |order|
  {
    if order == [] {
      assert Elements(order) == {};
      assert Legislation(s, {}) == {};
    } else {
      var m := order[0];
      var s' := Step(s, primary, m, seen);
      var rest := Elements(order[1..]);
      FoldSponsors(s', primary, order[1..], seen + AliasNames(s, {m}));
      ElementsCons(order);
      assert primary !in rest;
      assert Legislation(s', rest) == Legislation(s, rest) by {
        forall k | k in Legislation(s', rest) ensures k in Legislation(s, rest) {
          var p :| p in s'.sponsors && p.1 in rest && p.0 == k;
        }
      }
      assert Legislation(s, Elements(order)) == Legislation(s, {m}) + Legislation(s, rest);
    }
  }

  /** The names seen at the visit of `order[j]`, counted from the state after
      the visit of `order[0]`, are those counted from the state before it. */
  lemma SeenAfterFirstVisit(s: Store, primary: MemberId, order: seq<MemberId>, seen: set<string>, j: nat)
    requires primary !in order
    requires forall i, j | 0 <= i < j < |order| :: order[i] != order[j]
    requires 1 <= j <= |order|
    ensures seen + AliasNames(s, {order[0]}) + AliasNames(Step(s, primary, order[0], seen), Elements(order[1..][..j - 1]))
      == seen + AliasNames(s, Elements(order[..j]))
  {
    var m := order[0];
    var s' := Step(s, primary, m, seen);
    var rest := order[1..];
    var before := Elements(rest[..j - 1]);
    assert rest[..j - 1] == order[1..j];
    ElementsCons(order[..j]);
    assert order[..j][1..] == order[1..j];
    assert Elements(order[..j]) == {m} + before;
    assert primary !in before;
    assert m !in before by {
      assert forall k | 1 <= k < j :: order[k] != order[0];
    }
    AliasNamesFrame(s, s', before);
    AliasNamesUnion(s, {m}, before);
  }

  /** The loop's effect on alias rows: a row of a member outside `order` is
      untouched; the row of `order[j]` moves to the primary exactly when its
      name is neither in `seen` nor among the names of the members visited
      before `order[j]`; no name changes. */
  lemma {:induction false} FoldAliases(s: Store, primary: MemberId, order: seq<MemberId>, seen: set<string>)
    requires primary !in order
    requires forall i, j | 0 <= i < j < |order| :: order[i] != order[j]
    ensures var u := Fold(s, primary, order, seen);
      && u.aliases.Keys == s.aliases.Keys
      && (forall r | r in s.aliases && s.aliases[r].member !in order :: u.aliases[r] == s.aliases[r])
      && (forall r, j | r in s.aliases && 0 <= j < |order| && s.aliases[r].member == order[j] ::
            u.aliases[r] == if s.aliases[r].name in seen + AliasNames(s, Elements(order[..j]))
                            then s.aliases[r]
                            else Alias(primary, s.aliases[r].name))
    decreases |order|
  {
    if order != [] {
      var m := order[0];
      var s' := Step(s, primary, m, seen);
      var seen' := seen + AliasNames(s, {m});
      var rest := order[1..];
      FoldAliases(s', primary, rest, seen');
      var u := Fold(s', primary, rest, seen');
      assert u == Fold(s, primary, order, seen);
      assert forall k | 0 <= k < |rest| :: rest[k] == order[k + 1];
      assert m !in rest;
      forall r | r in s.aliases && s.aliases[r].member !in order
        ensures u.aliases[r] == s.aliases[r]
      {
        assert s'.aliases[r] == s.aliases[r];
      }
      forall r, j | r in s.aliases && 0 <= j < |order| && s.aliases[r].member == order[j]
        ensures u.aliases[r] == if s.aliases[r].name in seen + AliasNames(s, Elements(order[..j]))
                                then s.aliases[r]
                                else Alias(primary, s.aliases[r].name)
      {
        if j == 0 {
          assert Elements(order[..0]) == {};
          assert AliasNames(s, {}) == {};
        } else {
          assert order[j] != m;
          assert s'.aliases[r] == s.aliases[r];
          assert rest[j - 1] == order[j];
          SeenAfterFirstVisit(s, primary, order, seen, j);
        }
      }
    }
  }

  // ---------------------------------------------------------------------
  // The merge
  // ---------------------------------------------------------------------

  lemma ElementsOfInput(s: Store, selected: set<MemberId>, primary: MemberId, order: seq<MemberId>)
    requires MergeInput(s, selected, primary, order)
    ensures Elements(order) == selected - {primary}
    ensures primary !in order
  {
  }

  /** Alias rows after the merge, as the loop and the cascade leave them. */
  lemma MergedAliasesFromFold(s: Store, selected: set<MemberId>, primary: MemberId, order: seq<MemberId>)
    requires MergeInput(s, selected, primary, order)
    ensures var u := Fold(s, primary, order, AliasNames(s, {primary}));
      && u.aliases.Keys == s.aliases.Keys
      && (forall r | r in s.aliases && s.aliases[r].member !in order :: u.aliases[r] == s.aliases[r])
      && (forall r, j | r in s.aliases && 0 <= j < |order| && s.aliases[r].member == order[j] ::
            u.aliases[r] == if s.aliases[r].name in SeenBefore(s, primary, order, j)
                            then s.aliases[r]
                            else Alias(primary, s.aliases[r].name))
      && (forall r :: r in Merged(s, selected, primary, order).aliases <==> r in u.aliases && u.aliases[r].member !in order)
      && (forall r | r in Merged(s, selected, primary, order).aliases :: Merged(s, selected, primary, order).aliases[r] == u.aliases[r])
  {
    ElementsOfInput(s, selected, primary, order);
    FoldAliases(s, primary, order, AliasNames(s, {primary}));
    CascadeAliases(Fold(s, primary, order, AliasNames(s, {primary})), selected - {primary});
  }

  /** Alias rows after the merge. The primary's rows and those of unselected
      members stay as they were; a row of the other member `order[j]` survives,
      repointed to the primary, exactly when its name was not yet seen when
      `order[j]` was visited, and otherwise it disappears with its owner. */
  lemma MergedAliases(s: Store, selected: set<MemberId>, primary: MemberId, order: seq<MemberId>)
    requires MergeInput(s, selected, primary, order)
    ensures var t := Merged(s, selected, primary, order);
      && t.aliases.Keys <= s.aliases.Keys
      && (forall r | r in s.aliases && s.aliases[r].member !in selected - {primary} ::
            r in t.aliases && t.aliases[r] == s.aliases[r])
      && (forall r, j | r in s.aliases && 0 <= j < |order| && s.aliases[r].member == order[j] ::
            && (r in t.aliases <==> s.aliases[r].name !in SeenBefore(s, primary, order, j))
            && (r in t.aliases ==> t.aliases[r] == Alias(primary, s.aliases[r].name)))
      && (forall r | r in t.aliases :: t.aliases[r] == s.aliases[r] || t.aliases[r] == Alias(primary, s.aliases[r].name))
  {
    ElementsOfInput(s, selected, primary, order);
    MergedAliasesFromFold(s, selected, primary, order);
    AliasesAfterLoopAndCascade(s, Fold(s, primary, order, AliasNames(s, {primary})), Merged(s, selected, primary, order),
      selected, primary, order);
  }

  /** The reasoning of `MergedAliases` over arbitrary states `u` (after the
      loop) and `t` (after the cascade) that relate to `s` as the loop and the
      cascade do. */
  lemma AliasesAfterLoopAndCascade(s: Store, u: Store, t: Store, selected: set<MemberId>, primary: MemberId, order: seq<MemberId>)
    requires Elements(order) == selected - {primary}
    requires u.aliases.Keys == s.aliases.Keys
    requires forall r | r in s.aliases && s.aliases[r].member !in order :: u.aliases[r] == s.aliases[r]
    requires forall r, j | r in s.aliases && 0 <= j < |order| && s.aliases[r].member == order[j] ::
      u.aliases[r] == if s.aliases[r].name in SeenBefore(s, primary, order, j)
                      then s.aliases[r]
                      else Alias(primary, s.aliases[r].name)
    requires forall r :: r in t.aliases <==> r in u.aliases && u.aliases[r].member !in order
    requires forall r | r in t.aliases :: t.aliases[r] == u.aliases[r]
    ensures t.aliases.Keys <= s.aliases.Keys
    ensures forall r | r in s.aliases && s.aliases[r].member !in selected - {primary} ::
      r in t.aliases && t.aliases[r] == s.aliases[r]
    ensures forall r, j | r in s.aliases && 0 <= j < |order| && s.aliases[r].member == order[j] ::
      && (r in t.aliases <==> s.aliases[r].name !in SeenBefore(s, primary, order, j))
      && (r in t.aliases ==> t.aliases[r] == Alias(primary, s.aliases[r].name))
    ensures forall r | r in t.aliases :: t.aliases[r] == s.aliases[r] || t.aliases[r] == Alias(primary, s.aliases[r].name)
  {
    forall r | r in s.aliases && s.aliases[r].member !in selected - {primary}
      ensures r in t.aliases && t.aliases[r] == s.aliases[r]
    {
      assert s.aliases[r].member !in order;
      assert u.aliases[r] == s.aliases[r];
    }
    forall r | r in t.aliases
      ensures t.aliases[r] == s.aliases[r] || t.aliases[r] == Alias(primary, s.aliases[r].name)
    {
      if s.aliases[r].member in order {
        var j :| 0 <= j < |order| && order[j] == s.aliases[r].member;
        assert u.aliases[r] == s.aliases[r] || u.aliases[r] == Alias(primary, s.aliases[r].name);
      }
    }
  }

  /** The cascade keeps exactly the alias rows whose owner survives. */
  lemma CascadeAliases(u: Store, gone: set<MemberId>)
    ensures var t := CascadeDelete(u, gone);
      && (forall r :: r in t.aliases <==> r in u.aliases && u.aliases[r].member !in gone)
      && (forall r | r in t.aliases :: t.aliases[r] == u.aliases[r])
  {
  }

  /** Every alias name of a selected member ends up among the primary's. */
  lemma {:induction false} NameReachesPrimary(s: Store, selected: set<MemberId>, primary: MemberId, order: seq<MemberId>, j: nat, r: RowId)
    requires MergeInput(s, selected, primary, order)
    requires j < |order| && r in s.aliases && s.aliases[r].member == order[j]
    ensures s.aliases[r].name in AliasNames(Merged(s, selected, primary, order), {primary})
    decreases j
  {
    var t := Merged(s, selected, primary, order);
    var n := s.aliases[r].name;
    MergedAliases(s, selected, primary, order);
    if n !in SeenBefore(s, primary, order, j) {
      assert r in t.aliases && t.aliases[r].member == primary;
    } else if n in AliasNames(s, {primary}) {
      var r' :| r' in s.aliases && s.aliases[r'].member in {primary} && s.aliases[r'].name == n;
      assert r' in t.aliases && t.aliases[r'] == s.aliases[r'];
    } else {
      var r' :| r' in s.aliases && s.aliases[r'].member in Elements(order[..j]) && s.aliases[r'].name == n;
      var k :| 0 <= k < j && order[..j][k] == s.aliases[r'].member;
      NameReachesPrimary(s, selected, primary, order, k, r');
    }
  }

  /** After the merge the primary's alias names are exactly the alias names of
      all selected members. */
  lemma MergedAliasNames(s: Store, selected: set<MemberId>, primary: MemberId, order: seq<MemberId>)
    requires MergeInput(s, selected, primary, order)
    ensures AliasNames(Merged(s, selected, primary, order), {primary}) == AliasNames(s, selected)
  {
    var t := Merged(s, selected, primary, order);
    MergedAliases(s, selected, primary, order);
    ElementsOfInput(s, selected, primary, order);
    forall n | n in AliasNames(t, {primary}) ensures n in AliasNames(s, selected) {
      var r :| r in t.aliases && t.aliases[r].member == primary && t.aliases[r].name == n;
      assert s.aliases[r].member in selected;
    }
    forall n | n in AliasNames(s, selected) ensures n in AliasNames(t, {primary}) {
      var r :| r in s.aliases && s.aliases[r].member in selected && s.aliases[r].name == n;
      if s.aliases[r].member == primary {
        assert r in t.aliases && t.aliases[r] == s.aliases[r];
      } else {
        var j :| 0 <= j < |order| && order[j] == s.aliases[r].member;
        NameReachesPrimary(s, selected, primary, order, j, r);
      }
    }
  }

  /** The names of member `m`'s aliases are pairwise distinct. */
  ghost predicate DistinctNames(s: Store, m: MemberId) {
    forall r1, r2 | r1 in s.aliases && r2 in s.aliases && s.aliases[r1].member == m && s.aliases[r2].member == m
      && s.aliases[r1].name == s.aliases[r2].name :: r1 == r2
  }

  lemma {:induction false} DistinctImageSize(aliases: map<RowId, Alias>, rows: set<RowId>)
    requires rows <= aliases.Keys
    requires forall r1, r2 | r1 in rows && r2 in rows && aliases[r1].name == aliases[r2].name :: r1 == r2
    ensures |set r | r in rows :: aliases[r].name| == |rows|
    decreases rows
  {
    if rows != {} {
      var x :| x in rows;
      var rest := rows - {x};
      DistinctImageSize(aliases, rest);
      var names := set r | r in rows :: aliases[r].name;
      var restNames := set r | r in rest :: aliases[r].name;
      assert names == restNames + {aliases[x].name};
      assert aliases[x].name !in restNames;
    }
  }

  /** A merge does not create alias rows with a repeated name: when every
      selected member's alias names are distinct, so are the primary's after the
      merge, and it owns one alias row per name of the selection. */
  lemma MergedAliasCount(s: Store, selected: set<MemberId>, primary: MemberId, order: seq<MemberId>)
    requires MergeInput(s, selected, primary, order)
    requires forall m | m in selected :: DistinctNames(s, m)
    ensures DistinctNames(Merged(s, selected, primary, order), primary)
    ensures |AliasRows(Merged(s, selected, primary, order), primary)| == |AliasNames(s, selected)|
  {
    var t := Merged(s, selected, primary, order);
    MergedAliases(s, selected, primary, order);
    MergedAliasNames(s, selected, primary, order);
    ElementsOfInput(s, selected, primary, order);
    forall r1, r2 | r1 in t.aliases && r2 in t.aliases && t.aliases[r1].member == primary && t.aliases[r2].member == primary
      && t.aliases[r1].name == t.aliases[r2].name
      ensures r1 == r2
    {
      SameNameSameRow(s, selected, primary, order, r1, r2);
    }
    var rows := AliasRows(t, primary);
    DistinctImageSize(t.aliases, rows);
    assert (set r | r in rows :: t.aliases[r].name) == AliasNames(t, {primary});
  }

  /** Every name of a member visited before `order[j]` counts as seen at `order[j]`. */
  lemma EarlierNamesSeen(s: Store, primary: MemberId, order: seq<MemberId>)
    ensures forall k, j | 0 <= k < j <= |order| :: AliasNames(s, {order[k]}) <= SeenBefore(s, primary, order, j)
  {
    forall k, j | 0 <= k < j <= |order| ensures AliasNames(s, {order[k]}) <= SeenBefore(s, primary, order, j) {
      assert order[..j][k] == order[k];
      AliasNamesUnion(s, {order[k]}, Elements(order[..j]) - {order[k]});
      assert {order[k]} + (Elements(order[..j]) - {order[k]}) == Elements(order[..j]);
    }
  }

  lemma SameNameSameRow(s: Store, selected: set<MemberId>, primary: MemberId, order: seq<MemberId>, r1: RowId, r2: RowId)
    requires MergeInput(s, selected, primary, order)
    requires forall m | m in selected :: DistinctNames(s, m)
    requires var t := Merged(s, selected, primary, order);
      r1 in t.aliases && r2 in t.aliases && t.aliases[r1].member == primary && t.aliases[r2].member == primary
      && t.aliases[r1].name == t.aliases[r2].name
    ensures r1 == r2
  {
    MergedAliases(s, selected, primary, order);
    ElementsOfInput(s, selected, primary, order);
    EarlierNamesSeen(s, primary, order);
    var m1, m2 := s.aliases[r1].member, s.aliases[r2].member;
    var n := s.aliases[r1].name;
    assert m1 in selected && m2 in selected && s.aliases[r2].name == n;
    assert n in AliasNames(s, {m1}) && n in AliasNames(s, {m2});
    // The visit positions of the two owners (-1 for the primary).
    var j1, j2 := -1, -1;
    if m1 != primary {
      j1 :| 0 <= j1 < |order| && order[j1] == m1;
    }
    if m2 != primary {
      j2 :| 0 <= j2 < |order| && order[j2] == m2;
    }
    assert 0 <= j1 ==> n !in SeenBefore(s, primary, order, j1);
    assert 0 <= j2 ==> n !in SeenBefore(s, primary, order, j2);
    // A row of a member visited later would have found the name already seen,
    // so both rows come from the same member.
    assert j1 == j2;
    assert m1 == m2;
    assert DistinctNames(s, m1);
  }

  /** Tenure and vote rows after the merge: every row of a selected member is
      owned by the primary, every other row keeps its owner, and none is lost,
      so the number of rows is conserved. */
  lemma MergedTenuresAndVotes(s: Store, selected: set<MemberId>, primary: MemberId, order: seq<MemberId>)
    requires MergeInput(s, selected, primary, order)
    ensures var t := Merged(s, selected, primary, order);
      && t.tenures == ReassignAll(s.tenures, selected, primary)
      && t.votes == ReassignAll(s.votes, selected, primary)
      && |t.tenures| == |s.tenures| && |t.votes| == |s.votes|
      && RowsOf(t.tenures, primary) == (set r | r in s.tenures && s.tenures[r] in selected)
      && RowsOf(t.votes, primary) == (set r | r in s.votes && s.votes[r] in selected)
  {
    var gone := selected - {primary};
    ElementsOfInput(s, selected, primary, order);
    FoldOwners(s, primary, order, AliasNames(s, {primary}));
    CascadeOwners(s.tenures, gone, selected, primary);
    CascadeOwners(s.votes, gone, selected, primary);
  }

  /** Once every row of `gone` has been repointed to the primary, the cascade
      deletes none of them. */
  lemma CascadeOwners(owner: map<RowId, MemberId>, gone: set<MemberId>, selected: set<MemberId>, primary: MemberId)
    requires primary !in gone && selected == gone + {primary}
    ensures var v := FilterOwners(ReassignAll(owner, gone, primary), gone);
      && v == ReassignAll(owner, selected, primary)
      && v.Keys == owner.Keys
      && |v| == |owner|
      && RowsOf(v, primary) == (set r | r in owner && owner[r] in selected)
  {
    var v := FilterOwners(ReassignAll(owner, gone, primary), gone);
    assert v.Keys == owner.Keys;
    assert v == ReassignAll(owner, selected, primary);
  }

  /** Sponsorships after the merge: the primary sponsors exactly the legislation
      sponsored by any selected member (a set, so without duplicate pairs), the
      other selected members sponsor nothing, and the pairs of unselected members
      are those they had. */
  lemma MergedSponsors(s: Store, selected: set<MemberId>, primary: MemberId, order: seq<MemberId>)
    requires MergeInput(s, selected, primary, order)
    ensures Merged(s, selected, primary, order).sponsors ==
      (set p | p in s.sponsors && p.1 !in selected) + (set k | k in Legislation(s, selected) :: (k, primary))
    ensures Legislation(Merged(s, selected, primary, order), {primary}) == Legislation(s, selected)
  {
    var t := Merged(s, selected, primary, order);
    var gone := selected - {primary};
    ElementsOfInput(s, selected, primary, order);
    FoldSponsors(s, primary, order, AliasNames(s, {primary}));
    assert Legislation(s, selected) == Legislation(s, {primary}) + Legislation(s, gone);
    var expected := (set p | p in s.sponsors && p.1 !in selected) + (set k | k in Legislation(s, selected) :: (k, primary));
    forall p | p in expected ensures p in t.sponsors {
      if p.1 == primary && p !in s.sponsors {
        assert p.0 in Legislation(s, gone);
      }
    }
    assert t.sponsors == expected;
    forall k | k in Legislation(t, {primary}) ensures k in Legislation(s, selected) {
      assert (k, primary) in expected;
    }
    forall k | k in Legislation(s, selected) ensures k in Legislation(t, {primary}) {
      assert (k, primary) in t.sponsors;
    }
  }

  /** After the merge the other selected members are gone, nothing refers to
      them, the primary remains, and referential integrity still holds. */
  lemma MergedMembers(s: Store, selected: set<MemberId>, primary: MemberId, order: seq<MemberId>)
    requires MergeInput(s, selected, primary, order)
    ensures var t := Merged(s, selected, primary, order);
      && t.members == s.members - (selected - {primary})
      && primary in t.members
      && Consistent(t)
      && (forall r | r in t.aliases :: t.aliases[r].member !in selected - {primary})
      && (forall r | r in t.tenures :: t.tenures[r] !in selected - {primary})
      && (forall r | r in t.votes :: t.votes[r] !in selected - {primary})
      && (forall p | p in t.sponsors :: p.1 !in selected - {primary})
  {
    var t := Merged(s, selected, primary, order);
    ElementsOfInput(s, selected, primary, order);
    FoldOwners(s, primary, order, AliasNames(s, {primary}));
    MergedAliases(s, selected, primary, order);
    MergedTenuresAndVotes(s, selected, primary, order);
    MergedSponsors(s, selected, primary, order);
  }

  /** The primary's own alias, tenure, vote and sponsorship rows are neither
      removed nor reassigned. */
  lemma MergeKeepsPrimaryRows(s: Store, selected: set<MemberId>, primary: MemberId, order: seq<MemberId>)
    requires MergeInput(s, selected, primary, order)
    ensures var t := Merged(s, selected, primary, order);
      && (forall r | r in s.aliases && s.aliases[r].member == primary :: r in t.aliases && t.aliases[r] == s.aliases[r])
      && (forall r | r in s.tenures && s.tenures[r] == primary :: r in t.tenures && t.tenures[r] == primary)
      && (forall r | r in s.votes && s.votes[r] == primary :: r in t.votes && t.votes[r] == primary)
      && (forall k | (k, primary) in s.sponsors :: (k, primary) in t.sponsors)
  {
    MergedAliases(s, selected, primary, order);
    MergedTenuresAndVotes(s, selected, primary, order);
    MergedSponsors(s, selected, primary, order);
    var t := Merged(s, selected, primary, order);
    forall k | (k, primary) in s.sponsors ensures (k, primary) in t.sponsors {
      assert k in Legislation(s, selected);
    }
  }

  /** A member outside the selection keeps its record and exactly the alias,
      tenure, vote and sponsorship rows it had. */
  lemma MergeLeavesOthersAlone(s: Store, selected: set<MemberId>, primary: MemberId, order: seq<MemberId>, m: MemberId)
    requires MergeInput(s, selected, primary, order)
    requires m in s.members && m !in selected
    ensures var t := Merged(s, selected, primary, order);
      && m in t.members
      && AliasRows(t, m) == AliasRows(s, m)
      && (forall r | r in AliasRows(s, m) :: t.aliases[r] == s.aliases[r])
      && RowsOf(t.tenures, m) == RowsOf(s.tenures, m)
      && RowsOf(t.votes, m) == RowsOf(s.votes, m)
      && Legislation(t, {m}) == Legislation(s, {m})
  {
    var t := Merged(s, selected, primary, order);
    MergedAliases(s, selected, primary, order);
    MergedTenuresAndVotes(s, selected, primary, order);
    MergedSponsors(s, selected, primary, order);
    MergedMembers(s, selected, primary, order);
    assert AliasRows(t, m) == AliasRows(s, m);
    forall k | k in Legislation(t, {m}) ensures k in Legislation(s, {m}) {
      assert (k, m) in t.sponsors;
    }
    forall k | k in Legislation(s, {m}) ensures k in Legislation(t, {m}) {
      assert (k, m) in t.sponsors;
    }
  }

  /** Merging a selection that holds only the primary changes nothing. */
  lemma MergeOfPrimaryAlone(s: Store, primary: MemberId, order: seq<MemberId>)
    requires MergeInput(s, {primary}, primary, order)
    ensures Merged(s, {primary}, primary, order) == s
  {
    ElementsOfInput(s, {primary}, primary, order);
    ElementsEmpty(order);
    var t := Merged(s, {primary}, primary, order);
    assert t.aliases == s.aliases;
    assert t.tenures == s.tenures;
    assert t.votes == s.votes;
    assert t.sponsors == s.sponsors;
  }

  /** The order in which the other members are visited decides only which of
      several equally named alias rows survives: the members, the tenure and vote
      ownership, the sponsorships and the primary's alias names do not depend on it. */
  lemma MergeOrderIrrelevant(s: Store, selected: set<MemberId>, primary: MemberId, order1: seq<MemberId>, order2: seq<MemberId>)
    requires MergeInput(s, selected, primary, order1)
    requires MergeInput(s, selected, primary, order2)
    ensures var t1, t2 := Merged(s, selected, primary, order1), Merged(s, selected, primary, order2);
      && t1.members == t2.members
      && t1.tenures == t2.tenures
      && t1.votes == t2.votes
      && t1.sponsors == t2.sponsors
      && AliasNames(t1, {primary}) == AliasNames(t2, {primary})
  {
    MergedMembers(s, selected, primary, order1);
    MergedMembers(s, selected, primary, order2);
    MergedTenuresAndVotes(s, selected, primary, order1);
    MergedTenuresAndVotes(s, selected, primary, order2);
    MergedSponsors(s, selected, primary, order1);
    MergedSponsors(s, selected, primary, order2);
    MergedAliasNames(s, selected, primary, order1);
    MergedAliasNames(s, selected, primary, order2);
  }

  /** A store where member 1 has two aliases named "Y" and member 2 one. */
  function RepeatedNameStore(): Store {
    Store({0, 1, 2}, map[10 := Alias(1, "Y"), 11 := Alias(1, "Y"), 12 := Alias(2, "Y")], map[], map[], {})
  }

  /** Two members visited in the order `order` whose aliases all carry one
      name that the primary lacks: the primary ends with exactly the rows of
      the first, all under that name, however many rows the first holds. */
  lemma OneNameTwoMembers(s: Store, selected: set<MemberId>, primary: MemberId, order: seq<MemberId>, n: string)
    requires MergeInput(s, selected, primary, order) && |order| == 2
    requires AliasNames(s, {primary}) == {}
    requires AliasNames(s, {order[0]}) == {n} && AliasNames(s, {order[1]}) == {n}
    ensures AliasRows(Merged(s, selected, primary, order), primary) == AliasRows(s, order[0])
    ensures forall r | r in AliasRows(s, order[0]) :: Merged(s, selected, primary, order).aliases[r] == Alias(primary, n)
  {
    assert order[..0] == [] && order[..1] == [order[0]];
    assert Elements(order[..0]) == {} && Elements(order[..1]) == {order[0]};
    assert AliasNames(s, {}) == {};
    assert SeenBefore(s, primary, order, 0) == {};
    assert SeenBefore(s, primary, order, 1) == {n};
    MergedAliases(s, selected, primary, order);
    var t := Merged(s, selected, primary, order);
    forall r | r in AliasRows(s, order[0]) ensures t.aliases[r] == Alias(primary, n) {
      assert s.aliases[r].name in AliasNames(s, {order[0]});
    }
    forall r | r in s.aliases && s.aliases[r].member == order[1]
      ensures r !in t.aliases
    {
      assert s.aliases[r].name in AliasNames(s, {order[1]});
    }
    forall r | r in t.aliases && t.aliases[r].member == primary
      ensures s.aliases[r].member == order[0]
    {
      assert s.aliases[r].name !in AliasNames(s, {primary});
    }
  }

  /** The alias rows and names of `RepeatedNameStore`, and the two visiting
      orders of its members 1 and 2. */
  lemma RepeatedNameStoreFacts(s: Store)
    requires s == RepeatedNameStore()
    ensures AliasRows(s, 1) == {10, 11} && AliasRows(s, 2) == {12}
    ensures AliasNames(s, {0}) == {} && AliasNames(s, {1}) == {"Y"} && AliasNames(s, {2}) == {"Y"}
    ensures MergeInput(s, {0, 1, 2}, 0, [1, 2]) && MergeInput(s, {0, 1, 2}, 0, [2, 1])
  {
    assert AliasNames(s, {1}) == {"Y"} by {
      assert s.aliases[10].member in {1};
    }
    assert AliasNames(s, {2}) == {"Y"} by {
      assert s.aliases[12].member in {2};
    }
  }

  /** Without distinct names per member the merge carries a member's repeated
      name over to the primary, and the visiting order then decides how many
      rows the primary ends with: on `RepeatedNameStore`, visiting 1 first
      (`order1`) moves both rows of 1, as neither name was seen before the
      visit, and drops the row of 2; visiting 2 first (`order2`) keeps only the
      row of 2. */
  lemma RepeatedNameCarried(s: Store, order1: seq<MemberId>, order2: seq<MemberId>)
    requires s == RepeatedNameStore() && order1 == [1, 2] && order2 == [2, 1]
    ensures MergeInput(s, {0, 1, 2}, 0, order1) && MergeInput(s, {0, 1, 2}, 0, order2)
    ensures !DistinctNames(s, 1)
    ensures AliasRows(Merged(s, {0, 1, 2}, 0, order1), 0) == {10, 11}
    ensures !DistinctNames(Merged(s, {0, 1, 2}, 0, order1), 0)
    ensures AliasRows(Merged(s, {0, 1, 2}, 0, order2), 0) == {12}
  {
    RepeatedNameStoreFacts(s);
    OneNameTwoMembers(s, {0, 1, 2}, 0, order1, "Y");
    OneNameTwoMembers(s, {0, 1, 2}, 0, order2, "Y");
    var t := Merged(s, {0, 1, 2}, 0, order1);
    assert 10 in AliasRows(s, 1) && 11 in AliasRows(s, 1);
    assert t.aliases[10] == t.aliases[11] == Alias(0, "Y");
  }
}
