/**
 The merge of council members (the `merge` method of the form built by
 `merge_councilmember_form_factory`). Out of a selected set of members the
 caller picks a primary one; every other selected member is visited in turn:
 its aliases whose names have not been seen yet move to the primary, its
 tenures and votes are repointed to the primary, and its sponsored legislation
 is added to the primary's. Then the other members are deleted, and the cascade
 removes their leftover aliases and sponsorship links.

 `Step`, `Fold` and `Merged` describe the outcome as a function of the state
 before the merge; `Merge` is the in-place procedure, proved to produce it.
 */
module AdminForms {
  import opened Models

  /** The order in which the other members are visited is left open by the
      source: `order` lists every member of `ms` exactly once. */
  ghost predicate Enumerates(order: seq<MemberId>, ms: set<MemberId>) {
    && (forall i, j | 0 <= i < j < |order| :: order[i] != order[j])
    && (forall m :: m in order <==> m in ms)
  }

  /** What the merge demands: a consistent store, a selection of existing
      members that holds the primary, and a visiting order for the others. */
  ghost predicate MergeInput(s: Store, selected: set<MemberId>, primary: MemberId, order: seq<MemberId>) {
    && Consistent(s)
    && primary in selected
    && selected <= s.members
    && Enumerates(order, selected - {primary})
  }

  function Elements(order: seq<MemberId>): set<MemberId> {
    set m | m in order
  }

  /** The alias names already seen when the member `order[j]` is visited: the
      primary's own and those of every member visited before it. */
  ghost function SeenBefore(s: Store, primary: MemberId, order: seq<MemberId>, j: nat): set<string>
    requires j <= |order|
  {
    AliasNames(s, {primary}) + AliasNames(s, Elements(order[..j]))
  }

  /** One visit of the loop: member `m` is folded into `primary`, given the
      alias names `seen` so far. */
  ghost function Step(s: Store, primary: MemberId, m: MemberId, seen: set<string>): Store {
    s.(aliases := MoveAliases(s.aliases, NewAliasRows(s, m, seen), primary),
       tenures := Reassign(s.tenures, m, primary),
       votes := Reassign(s.votes, m, primary),
       sponsors := WithSponsor(s.sponsors, Legislation(s, {m}), primary))
  }

  /** The loop over the other members, visited in `order`. */
  ghost function Fold(s: Store, primary: MemberId, order: seq<MemberId>, seen: set<string>): Store
    decreases |order|
  {
    if order == [] then s
    else Fold(Step(s, primary, order[0], seen), primary, order[1..], seen + AliasNames(s, {order[0]}))
  }

  /** The state after the whole merge: the loop, then the cascading delete. */
  ghost function Merged(s: Store, selected: set<MemberId>, primary: MemberId, order: seq<MemberId>): Store {
    CascadeDelete(Fold(s, primary, order, AliasNames(s, {primary})), selected - {primary})
  }

  /** The set-based reference semantics of the tenure and vote repointing:
      every row owned by a member of `from` ends up owned by `to`. */
  ghost function ReassignAll(owner: map<RowId, MemberId>, from: set<MemberId>, to: MemberId): map<RowId, MemberId> {
    map r | r in owner :: if owner[r] in from then to else owner[r]
  }

  /** The merge itself, on the database in place. `selected` is the form's
      member queryset; `order` is the order in which the database returns the
      members other than the primary. */
  method Merge(db: Database, selected: set<MemberId>, primary: MemberId, order: seq<MemberId>)
    requires MergeInput(db.Snapshot(), selected, primary, order)
    modifies db
    ensures db.Valid()
    ensures db.Snapshot() == Merged(old(db.Snapshot()), selected, primary, order)
  {
    ghost var s0 := db.Snapshot();
    var seen := AliasNames(db.Snapshot(), {primary});
    ghost var seen0 := seen;
    var i := 0;
    while i < |order|
      invariant 0 <= i <= |order|
      invariant db.Valid() && db.members == s0.members
      invariant Fold(db.Snapshot(), primary, order[i..], seen) == Fold(s0, primary, order, seen0)
    {
      var member := order[i];
      ghost var before := db.Snapshot();
      ghost var seenBefore := seen;
      var newAliases := NewAliasRows(db.Snapshot(), member, seen);
      seen := seen + AliasNames(db.Snapshot(), {member});
      db.UpdateAliasMember(newAliases, primary);
      db.UpdateTenureMember(member, primary);
      db.UpdateVoter(member, primary);
      db.AddLegislation(primary, Legislation(db.Snapshot(), {member}));
      assert db.Snapshot() == Step(before, primary, member, seenBefore);
      assert order[i..][0] == member && order[i..][1..] == order[i + 1..];
      i := i + 1;
    }
    db.DeleteMembers(selected - {primary});
  }
}
