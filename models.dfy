/**
 The relational state the council-member merge works on: members, their alias,
 tenure and vote rows (each row keyed by its id and pointing at its owner), and
 the many-to-many sponsorship relation between legislative files and members.
 The class `Database` stands for the ORM: one method per bulk statement the merge
 issues (an UPDATE of an owner column, an INSERT into the sponsorship join table,
 and a DELETE of members that cascades to everything referring to them).
 */
module Models {

  type MemberId = nat
  type RowId = nat
  type LegKey = nat

  /** A CouncilMemberAlias row: the member it belongs to and the alternate name. */
  datatype Alias = Alias(member: MemberId, name: string)

  /** The whole store as a value. Tenure and vote rows are reduced to their owner
      column, the only column the merge touches. */
  datatype Store = Store(
    members: set<MemberId>,
    aliases: map<RowId, Alias>,
    tenures: map<RowId, MemberId>,
    votes: map<RowId, MemberId>,
    sponsors: set<(LegKey, MemberId)>)

  /** Referential integrity: every foreign key names an existing member. */
  ghost predicate Consistent(s: Store) {
    && (forall r | r in s.aliases :: s.aliases[r].member in s.members)
    && (forall r | r in s.tenures :: s.tenures[r] in s.members)
    && (forall r | r in s.votes :: s.votes[r] in s.members)
    && (forall p | p in s.sponsors :: p.1 in s.members)
  }

  /** The alias rows owned by member `m`. */
  function AliasRows(s: Store, m: MemberId): set<RowId> {
    set r | r in s.aliases && s.aliases[r].member == m
  }

  /** The alias names owned by any member of `ms`. */
  function AliasNames(s: Store, ms: set<MemberId>): set<string> {
    set r | r in s.aliases && s.aliases[r].member in ms :: s.aliases[r].name
  }

  /** The alias rows of `m` whose name is not in `seen`
      (the query `member.aliases.all().exclude(name__in=seen)`). */
  function NewAliasRows(s: Store, m: MemberId, seen: set<string>): set<RowId> {
    set r | r in s.aliases && s.aliases[r].member == m && s.aliases[r].name !in seen
  }

  /** The keys of the legislation sponsored by any member of `ms`. */
  function Legislation(s: Store, ms: set<MemberId>): set<LegKey> {
    set p | p in s.sponsors && p.1 in ms :: p.0
  }

  /** The rows of an owner column that point at `m`. */
  function RowsOf(owner: map<RowId, MemberId>, m: MemberId): set<RowId> {
    set r | r in owner && owner[r] == m
  }

  /** UPDATE alias SET member = to WHERE id IN rows. */
  function MoveAliases(aliases: map<RowId, Alias>, rows: set<RowId>, to: MemberId): map<RowId, Alias> {
    map r | r in aliases :: if r in rows then aliases[r].(member := to) else aliases[r]
  }

  /** UPDATE ... SET owner = to WHERE owner = from. */
  function Reassign(owner: map<RowId, MemberId>, from: MemberId, to: MemberId): map<RowId, MemberId> {
    map r | r in owner :: if owner[r] == from then to else owner[r]
  }

  /** The many-to-many `add`: a set union, so a pair already present is not doubled. */
  function WithSponsor(sponsors: set<(LegKey, MemberId)>, legs: set<LegKey>, to: MemberId): set<(LegKey, MemberId)> {
    sponsors + set k | k in legs :: (k, to)
  }

  /** The rows of an owner column whose owner is not in `gone` (what a cascading
      delete of `gone` keeps of that column). */
  function FilterOwners(owner: map<RowId, MemberId>, gone: set<MemberId>): map<RowId, MemberId> {
    map r | r in owner && owner[r] !in gone :: owner[r]
  }

  /** DELETE the members of `gone`, cascading to every row and link that refers to one. */
  function CascadeDelete(s: Store, gone: set<MemberId>): Store {
    Store(
      s.members - gone,
      map r | r in s.aliases && s.aliases[r].member !in gone :: s.aliases[r],
      FilterOwners(s.tenures, gone),
      FilterOwners(s.votes, gone),
      set p | p in s.sponsors && p.1 !in gone)
  }

  /** The cascade keeps referential integrity and removes every reference to a deleted member. */
  lemma CascadeDeleteConsistent(s: Store, gone: set<MemberId>)
    requires Consistent(s)
    ensures Consistent(CascadeDelete(s, gone))
    ensures var t := CascadeDelete(s, gone);
      && t.members !! gone
      && (forall r | r in s.aliases :: r in t.aliases <==> s.aliases[r].member !in gone)
      && (forall r | r in s.tenures :: r in t.tenures <==> s.tenures[r] !in gone)
      && (forall r | r in s.votes :: r in t.votes <==> s.votes[r] !in gone)
      && (forall p :: p in t.sponsors <==> p in s.sponsors && p.1 !in gone)
  {
  }

  /** The store itself, updated in place by the bulk statements of a merge. */
  class Database {
    var members: set<MemberId>
    var aliases: map<RowId, Alias>
    var tenures: map<RowId, MemberId>
    var votes: map<RowId, MemberId>
    var sponsors: set<(LegKey, MemberId)>

    function Snapshot(): Store
      reads this
    {
      Store(members, aliases, tenures, votes, sponsors)
    }

    ghost predicate Valid()
      reads this
    {
      Consistent(Snapshot())
    }

    constructor (s: Store)
      requires Consistent(s)
      ensures Valid() && Snapshot() == s
    {
      members, aliases, tenures, votes, sponsors := s.members, s.aliases, s.tenures, s.votes, s.sponsors;
    }

    /** `new_aliases.update(member=to)`: repoint the given alias rows. */
    method UpdateAliasMember(rows: set<RowId>, to: MemberId)
      requires Valid() && to in members
      modifies this
      ensures Valid()
      ensures Snapshot() == old(Snapshot()).(aliases := MoveAliases(old(aliases), rows, to))
    {
      aliases := MoveAliases(aliases, rows, to);
    }

    /** `member.tenures.all().update(councilmember=to)`. */
    method UpdateTenureMember(from: MemberId, to: MemberId)
      requires Valid() && to in members
      modifies this
      ensures Valid()
      ensures Snapshot() == old(Snapshot()).(tenures := Reassign(old(tenures), from, to))
    {
      tenures := Reassign(tenures, from, to);
    }

    /** `member.votes.all().update(voter=to)`. */
    method UpdateVoter(from: MemberId, to: MemberId)
      requires Valid() && to in members
      modifies this
      ensures Valid()
      ensures Snapshot() == old(Snapshot()).(votes := Reassign(old(votes), from, to))
    {
      votes := Reassign(votes, from, to);
    }

    /** `to.legislation.add(*legs)`. */
    method AddLegislation(to: MemberId, legs: set<LegKey>)
      requires Valid() && to in members
      modifies this
      ensures Valid()
      ensures Snapshot() == old(Snapshot()).(sponsors := WithSponsor(old(sponsors), legs, to))
    {
      sponsors := WithSponsor(sponsors, legs, to);
    }

    /** `queryset.delete()` over the members of `gone`, with its cascade. */
    method DeleteMembers(gone: set<MemberId>)
      requires Valid()
      modifies this
      ensures Valid()
      ensures Snapshot() == CascadeDelete(old(Snapshot()), gone)
    {
      CascadeDeleteConsistent(Snapshot(), gone);
      var t := CascadeDelete(Snapshot(), gone);
      members, aliases, tenures, votes, sponsors := t.members, t.aliases, t.tenures, t.votes, t.sponsors;
    }
  }
}
