# Council-member merge and search-document fields of councilmatic

This project models two parts of the `phillyleg` application of councilmatic, a
site that tracks the legislation of Philadelphia's city council:

- the **merge of council members** (`merge()` on the form built by
  `merge_councilmember_form_factory`). It folds a set of duplicate member
  records into one primary record.
- the **fields of the legislation search document** that the index computes
  itself: `prepare_is_blank`, `prepare_sponsors` and `prepare_topics`.

## The merge

The state is a relational store (`Models.Store`) with these parts:

- the set of member ids;
- the alias rows, each an owner and a name;
- the tenure and vote rows, each reduced to its owner column;
- the sponsorship relation, a set of (legislation key, member) pairs.

`Models.Database` is a class holding that state. It stands for the ORM: one
method per bulk statement the merge issues. These are the UPDATE of an owner
column, the many-to-many `add` (a set union), and the `delete()` of members,
which cascades to every row and link that still refers to them.

`AdminForms.Merge` is the procedure itself, a loop over the members other than
the primary. The order of that loop is a parameter (`order`), because the
source leaves it to the database. The procedure is proved to produce
`AdminForms.Merged`, the function that describes the result of the merge from
the state before it. The module `MergeProperties` proves what the merge
guarantees about `Merged`:

- the primary ends with exactly the alias names of all selected members;
- a duplicate's alias moves only if its name was not yet seen, otherwise it is
  deleted with its owner;
- when each selected member's alias names are distinct, no alias rows with a
  repeated name are created;
- the tenure and vote rows are conserved;
- the primary's sponsorships become the union of the selection's;
- the other selected members and every reference to them are gone;
- the primary and the unselected members keep their rows;
- a selection of the primary alone changes nothing;
- the members, the tenure and vote ownership, the sponsorships and the
  primary's alias names do not depend on the visiting order; when each selected
  member's alias names are distinct, the order decides only which of several
  equally named aliases survives.

The code does not guard against a member that already has two aliases with
the same name. Both rows move to the primary when that name was not seen
before the visit, because line 17 filters only against names of other members.
The primary then ends with a repeated name, and how many rows it keeps depends
on the visiting order. `MergeProperties.RepeatedNameCarried` shows this on a
three-member store.

The exclusion at `councilmatic/phillyleg/admin_forms.py:17` is modelled with the seen-name set as it
was before the update at line 18. The Django filter copies an `__in` value when
the queryset is built, and the test at `councilmatic/phillyleg/tests/admin_tests.py:81` expects 5
aliases, which only that reading gives.

In three places the code does less than a complete design of the merge would,
and the model follows the code:

- The code does not delete redundant aliases explicitly. They stay with their
  owner and disappear with it in the cascade at line 25.
- The code returns no counts.
- The code raises no "unknown member" or "stale merge" error. A selected id
  that names no member is simply not in the queryset.

## The search document

A legislative file is a record with these fields: the title, the sponsors
(each a real name plus alias names, in database order), and optional metadata
holding topics.

- `PrepareIsBlank` tests the title with Python's `strip()`. It follows the
  whitespace set of Python 2.7's `unicode.isspace()`.
- `PrepareSponsors` builds the real names, then the chained alias names.
- `PrepareTopics` returns `None` when the metadata does not exist yet.

## Model

| member | source | states |
|---|---|---|
| `Models.CascadeDeleteConsistent` | councilmatic/phillyleg/admin_forms.py:25 | deleting members keeps referential integrity; an alias, tenure or vote row or a sponsorship pair survives exactly when its member is not deleted |
| `Models.Database.UpdateAliasMember` | councilmatic/phillyleg/admin_forms.py:19 | the given alias rows now belong to the target member; nothing else in the store changes and integrity is kept |
| `Models.Database.UpdateTenureMember` | councilmatic/phillyleg/admin_forms.py:21 | every tenure row of the source member now belongs to the target; nothing else changes |
| `Models.Database.UpdateVoter` | councilmatic/phillyleg/admin_forms.py:22 | every vote row of the source member now belongs to the target; nothing else changes |
| `Models.Database.AddLegislation` | councilmatic/phillyleg/admin_forms.py:23 | the sponsorship relation becomes its union with the given legislation paired with the member; nothing else changes |
| `Models.Database.DeleteMembers` | councilmatic/phillyleg/admin_forms.py:25 | the store becomes its cascading delete of the given members, and integrity is kept |
| `AdminForms.Merge` | councilmatic/phillyleg/admin_forms.py:10-25 | the loop over the other members followed by the delete leaves the database in exactly the state `Merged` gives for the state before, and integrity is kept |
| `MergeProperties.FoldOwners` | councilmatic/phillyleg/admin_forms.py:15-22 | after the loop every tenure and vote row of a visited member is owned by the primary, every other row keeps its owner, and the member set is unchanged |
| `MergeProperties.FoldSponsors` | councilmatic/phillyleg/admin_forms.py:15-23 | after the loop the sponsorship relation is the old one plus the legislation of every visited member paired with the primary |
| `MergeProperties.FoldAliases` | councilmatic/phillyleg/admin_forms.py:14-19 | after the loop an alias row of an unvisited member is untouched; a row of `order[j]` moves to the primary exactly when its name is neither in the initial seen set nor a name of a member visited before `order[j]` |
| `MergeProperties.MergedAliasesFromFold` | councilmatic/phillyleg/admin_forms.py:14-25 | the alias rows after the merge are the rows the loop leaves with an owner that is not deleted, unchanged |
| `MergeProperties.MergedAliases` | councilmatic/phillyleg/admin_forms.py:12-25 | the primary's and unselected members' alias rows are unchanged; a row of the other member `order[j]` survives, owned by the primary, exactly when its name was not seen before the visit of `order[j]`, and otherwise it is gone; no row gets any other owner |
| `MergeProperties.NameReachesPrimary` | councilmatic/phillyleg/admin_forms.py:14-19 | every alias name of a visited member is among the primary's alias names after the merge |
| `MergeProperties.MergedAliasNames` | councilmatic/phillyleg/admin_forms.py:14-19 | the primary's alias names after the merge equal the union of the alias names of all selected members |
| `MergeProperties.EarlierNamesSeen` | councilmatic/phillyleg/admin_forms.py:14-18 | the names of every member visited before `order[j]` are in the seen set at `order[j]` |
| `MergeProperties.SameNameSameRow` | councilmatic/phillyleg/admin_forms.py:17-19 | when each selected member's alias names are distinct, two alias rows of the primary with the same name after the merge are the same row |
| `MergeProperties.MergedAliasCount` | councilmatic/phillyleg/admin_forms.py:17-25 | when each selected member's alias names are distinct, the primary's alias names stay distinct and it owns exactly one alias row per distinct name of the selection |
| `MergeProperties.CascadeOwners` | councilmatic/phillyleg/admin_forms.py:21-25 | once every tenure or vote row of the deleted members points at the primary, the cascade deletes none of them, and the number of rows is unchanged |
| `MergeProperties.MergedTenuresAndVotes` | councilmatic/phillyleg/admin_forms.py:21-25 | after the merge every tenure and vote row of a selected member is owned by the primary, every other row keeps its owner, and the number of tenure and vote rows is conserved |
| `MergeProperties.MergedSponsors` | councilmatic/phillyleg/admin_forms.py:23-25 | after the merge the primary sponsors exactly the legislation sponsored by any selected member; the other selected members sponsor nothing; unselected members keep exactly their pairs |
| `MergeProperties.MergedMembers` | councilmatic/phillyleg/admin_forms.py:12-25 | after the merge the members are the old ones minus the other selected members; the primary remains; no alias, tenure, vote or sponsorship row refers to a deleted member; integrity holds |
| `MergeProperties.MergeKeepsPrimaryRows` | councilmatic/phillyleg/admin_forms.py:12-25 | the primary's own alias, tenure, vote and sponsorship rows are neither removed nor reassigned |
| `MergeProperties.MergeLeavesOthersAlone` | councilmatic/phillyleg/admin_forms.py:12-25 | an unselected member keeps its record and exactly its alias rows (unchanged), tenure rows, vote rows and sponsored legislation |
| `MergeProperties.MergeOfPrimaryAlone` | councilmatic/phillyleg/admin_forms.py:12-25 | a merge whose selection holds only the primary leaves the store as it was |
| `MergeProperties.MergeOrderIrrelevant` | councilmatic/phillyleg/admin_forms.py:15-25 | two visiting orders give the same members, tenure and vote ownership, sponsorships and primary alias names |
| `MergeProperties.OneNameTwoMembers` | councilmatic/phillyleg/admin_forms.py:14-25 | when the primary has no aliases and the two visited members' aliases all carry one name, every alias row of the first member ends with the primary under that name and the primary owns no other row, whatever the number of rows of either member |
| `MergeProperties.RepeatedNameCarried` | councilmatic/phillyleg/admin_forms.py:14-25 | on a store whose member 1 has two aliases named "Y" and member 2 one, visiting 1 first leaves the primary both rows of 1, a repeated name, while visiting 2 first leaves it only the row of 2 |
| `SearchIndexes.StripLeading` | councilmatic/phillyleg/search_indexes.py:25 | the result is a suffix of the input that is empty or starts with a non-whitespace character, and everything removed is whitespace |
| `SearchIndexes.StripTrailing` | councilmatic/phillyleg/search_indexes.py:25 | the result is a prefix of the input that is empty or ends with a non-whitespace character, and everything removed is whitespace |
| `SearchIndexes.PrepareIsBlank` | councilmatic/phillyleg/search_indexes.py:24-25 | the title is blank exactly when every character of it is whitespace, the empty title included |
| `SearchIndexes.RealNames` | councilmatic/phillyleg/search_indexes.py:29 | one entry per sponsor, the i-th being the i-th sponsor's real name |
| `SearchIndexes.ChainedAliases` | councilmatic/phillyleg/search_indexes.py:30 | its length is the total number of aliases of all sponsors |
| `SearchIndexes.PrepareSponsors` | councilmatic/phillyleg/search_indexes.py:27-31 | the list has one entry per sponsor plus one per alias; it starts with the real names in sponsor order, and the rest is the chained alias names (whose positions `ChainedAliasAt` and `SponsorAliasPosition` state) |
| `SearchIndexes.ChainedAliasesAppend` | councilmatic/phillyleg/search_indexes.py:30 | chaining the aliases of two sponsor lists joined is chaining each and joining, and the alias counts add up |
| `SearchIndexes.ChainedAliasAt` | councilmatic/phillyleg/search_indexes.py:30 | the k-th alias of sponsor i sits in the chain right after the aliases of the sponsors before i |
| `SearchIndexes.SponsorAliasPosition` | councilmatic/phillyleg/search_indexes.py:27-31 | in the sponsor field the k-th alias of sponsor i follows all real names and the aliases of the sponsors before i, so aliases are grouped by sponsor in sponsor order |
| `SearchIndexes.PrepareTopics` | councilmatic/phillyleg/search_indexes.py:33-41 | no result exactly when the file has no metadata; otherwise the topic strings of the metadata, one per topic, in order |

## Left out

- Transactions, concurrent merges and rollback: the code wraps nothing in a transaction, and a single sequential run is modelled.
- The number of SQL queries a merge issues (`councilmatic/phillyleg/tests/admin_tests.py:98-183`) is a property of the ORM, not of the state. The model does keep one bulk call per step: per visited member, one alias update, one tenure update, one vote update and one sponsorship add; then one delete.
- Form validation (`councilmatic/phillyleg/admin_forms.py:7-8`): Django's choice fields are reduced to the precondition that the primary is in the selection and the selection consists of existing members.
- Tenure dates, vote values and every other column besides the owner are not modelled. The merge does not touch them.
- The legislative files themselves are not modelled: sponsorships are pairs of a legislation key and a member.
- `prepare_sponsors` reads `leg.sponsors.all()` twice. The model assumes both reads return the sponsors in the same order.
- `PrepareIsBlank` uses a fixed whitespace set. It follows Python 2.7's Unicode tables and does not follow later Unicode versions.
- The admin views, the admin registration, the API form, the packaging script and the search backends are not part of this model. They are framework plumbing with no logic of their own.
