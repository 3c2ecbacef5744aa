/**
 The fields of the search document for a legislative file that the index
 computes itself: whether the title is blank, the sponsor names (real names
 first, then every sponsor's aliases), and the topic strings of the file's
 metadata. The records are the read-only values those computations see.
 */
module SearchIndexes {

  datatype Option<T> = None | Some(value: T)

  /** A sponsoring council member: the real name and the names of its aliases. */
  datatype Sponsor = Sponsor(realName: string, aliases: seq<string>)

  datatype Topic = Topic(topic: string)

  /** The metadata extracted from a legislative file's text. */
  datatype MetaData = MetaData(topics: seq<Topic>)

  /** A legislative file: its title, its sponsors in the order the database
      returns them, and its metadata, which may not have been created yet. */
  datatype LegFile = LegFile(title: string, sponsors: seq<Sponsor>, metadata: Option<MetaData>)

  /** The characters Python 2.7's `unicode.strip()` removes (those for which
      `unicode.isspace()` holds). */
  const Whitespace: set<char> := {
    '\U{0009}', '\U{000A}', '\U{000B}', '\U{000C}', '\U{000D}',
    '\U{001C}', '\U{001D}', '\U{001E}', '\U{001F}', '\U{0020}',
    '\U{0085}', '\U{00A0}', '\U{1680}', '\U{180E}',
    '\U{2000}', '\U{2001}', '\U{2002}', '\U{2003}', '\U{2004}', '\U{2005}',
    '\U{2006}', '\U{2007}', '\U{2008}', '\U{2009}', '\U{200A}',
    '\U{2028}', '\U{2029}', '\U{202F}', '\U{205F}', '\U{3000}'
  }

  predicate IsSpace(c: char) {
    c in Whitespace
  }

  /** Removes the leading whitespace: what is left is a suffix of `s` that is
      empty or starts with a non-whitespace character, and all that was removed
      is whitespace. */
  function StripLeading(s: string): (r: string)
    ensures |r| <= |s| && r == s[|s| - |r|..]
    ensures forall i | 0 <= i < |s| - |r| :: IsSpace(s[i])
    ensures r == [] || !IsSpace(r[0])
  {
    if s != [] && IsSpace(s[0]) then
      var r := StripLeading(s[1..]);
      assert forall i | 1 <= i < |s| :: s[1..][i - 1] == s[i];
      r
    else s
  }

  /** Removes the trailing whitespace: what is left is a prefix of `s` that is
      empty or ends with a non-whitespace character, and all that was removed
      is whitespace. */
  function StripTrailing(s: string): (r: string)
    ensures |r| <= |s| && r == s[..|r|]
    ensures forall i | |r| <= i < |s| :: IsSpace(s[i])
    ensures r == [] || !IsSpace(r[|r| - 1])
  {
    if s != [] && IsSpace(s[|s| - 1]) then
      var r := StripTrailing(s[..|s| - 1]);
      assert forall i | 0 <= i < |s| - 1 :: s[..|s| - 1][i] == s[i];
      r
    else s
  }

  /** `str.strip()`. */
  function Strip(s: string): string {
    StripTrailing(StripLeading(s))
  }

  /** `prepare_is_blank`: the title is blank exactly when every character of it
      is whitespace, the empty title included. */
  function PrepareIsBlank(leg: LegFile): (blank: bool)
    ensures blank <==> forall i | 0 <= i < |leg.title| :: IsSpace(leg.title[i])
  {
    var t := leg.title;
    var l := StripLeading(t);
    assert forall i | 0 <= i < |l| :: l[i] == t[|t| - |l| + i];
    Strip(t) == ""
  }

  /** The real names of the sponsors, in sponsor order. */
  function RealNames(sponsors: seq<Sponsor>): (names: seq<string>)
    ensures |names| == |sponsors|
    ensures forall i | 0 <= i < |sponsors| :: names[i] == sponsors[i].realName
  {
    if sponsors == [] then [] else [sponsors[0].realName] + RealNames(sponsors[1..])
  }

  /** The number of aliases over all sponsors. */
  function AliasCount(sponsors: seq<Sponsor>): nat {
    if sponsors == [] then 0 else |sponsors[0].aliases| + AliasCount(sponsors[1..])
  }

  /** `chain(*(sponsor.aliases.all() for sponsor in sponsors))`: the alias names
      of all sponsors, one sponsor's after the other's. Where each alias sits in
      the chain is stated by the lemma `ChainedAliasAt`. */
  function ChainedAliases(sponsors: seq<Sponsor>): (names: seq<string>)
    ensures |names| == AliasCount(sponsors)
  {
    if sponsors == [] then [] else sponsors[0].aliases + ChainedAliases(sponsors[1..])
  }

  /** `prepare_sponsors`: the real names of the sponsors in sponsor order,
      followed by all their alias names, grouped by sponsor in sponsor order.
      The position of each alias in the result is stated by the lemma
      `SponsorAliasPosition`. */
  function PrepareSponsors(leg: LegFile): (terms: seq<string>)
    ensures |terms| == |leg.sponsors| + AliasCount(leg.sponsors)
    ensures forall i | 0 <= i < |leg.sponsors| :: terms[i] == leg.sponsors[i].realName
    ensures terms[|leg.sponsors|..] == ChainedAliases(leg.sponsors)
  {
    var names := RealNames(leg.sponsors);
    var terms := names + ChainedAliases(leg.sponsors);
    assert terms[|names|..] == ChainedAliases(leg.sponsors);
    terms
  }

  /** Chaining distributes over concatenation of the sponsor list. */
  lemma {:induction false} ChainedAliasesAppend(a: seq<Sponsor>, b: seq<Sponsor>)
    ensures ChainedAliases(a + b) == ChainedAliases(a) + ChainedAliases(b)
    ensures AliasCount(a + b) == AliasCount(a) + AliasCount(b)
  {
    if a != [] {
      assert (a + b)[1..] == a[1..] + b;
      ChainedAliasesAppend(a[1..], b);
    } else {
      assert a + b == b;
    }
  }

  /** The `k`-th alias of sponsor `i` sits right after the aliases of the
      sponsors before it. */
  lemma {:induction false} ChainedAliasAt(sponsors: seq<Sponsor>, i: nat, k: nat)
    requires i < |sponsors| && k < |sponsors[i].aliases|
    ensures AliasCount(sponsors[..i]) + k < AliasCount(sponsors)
    ensures ChainedAliases(sponsors)[AliasCount(sponsors[..i]) + k] == sponsors[i].aliases[k]
  {
    if i == 0 {
      assert sponsors[..0] == [];
    } else {
      ChainedAliasAt(sponsors[1..], i - 1, k);
      assert sponsors[1..][..i - 1] == sponsors[1..i];
      assert sponsors[..i] == [sponsors[0]] + sponsors[1..i];
      ChainedAliasesAppend([sponsors[0]], sponsors[1..i]);
      assert [sponsors[0]][1..] == [];
    }
  }

  /** In the sponsor field, the `k`-th alias of sponsor `i` follows the real
      names and the aliases of the sponsors before `i`. */
  lemma SponsorAliasPosition(leg: LegFile, i: nat, k: nat)
    requires i < |leg.sponsors| && k < |leg.sponsors[i].aliases|
    ensures |leg.sponsors| + AliasCount(leg.sponsors[..i]) + k < |PrepareSponsors(leg)|
    ensures PrepareSponsors(leg)[|leg.sponsors| + AliasCount(leg.sponsors[..i]) + k] == leg.sponsors[i].aliases[k]
  {
    var terms := PrepareSponsors(leg);
    var n := |leg.sponsors|;
    ChainedAliasAt(leg.sponsors, i, k);
    assert terms[n..][AliasCount(leg.sponsors[..i]) + k] == terms[n + AliasCount(leg.sponsors[..i]) + k];
  }

  /** `prepare_topics`: the topic strings of the metadata in order, or nothing
      when the file has no metadata yet. */
  function PrepareTopics(leg: LegFile): (topics: Option<seq<string>>)
    ensures topics.None? <==> leg.metadata.None?
    ensures topics.Some? ==> |topics.value| == |leg.metadata.value.topics|
    ensures topics.Some? ==>
      forall i | 0 <= i < |topics.value| :: topics.value[i] == leg.metadata.value.topics[i].topic
  {
    match leg.metadata
    case None => None
    case Some(md) => Some(seq(|md.topics|, i requires 0 <= i < |md.topics| => md.topics[i].topic))
  }
}
