# Group list filter

A model of the group list component of a small social-network browser UI. The
component fetches a list of groups once, keeps it as the full list, and shows a
visible list derived from it by three criteria the user picks from menus:

- colour: an exact match on `avatar_color`;
- privacy: `"open"` or closed;
- entry: whether the user has friends in the group.

A reset control clears all three.

Files:

- `groups.dfy` (module `Groups`): the `Group` and `Friend` records. A group's `friends` list may be absent from the record, so it is an `Option`.
- `sequences.dfy` (module `Sequences`): `Select`, the order-preserving one-predicate filter that each pass uses (JavaScript's `Array.prototype.filter`), with its laws. It is an order-preserving subsequence, membership is exact, two passes fuse into one and commute, and a predicate and its negation partition the input.
- `group_filter.dfy` (module `GroupFilter`): the criteria and `Keep`, the reference predicate "passes every active criterion". `Filter` is the visible list defined by `Keep`. `FilterPasses` is the three-pass computation of `filterGroups`, proved equal to `Filter`. The lemmas state the properties the component relies on.
- `group_list.dfy` (module `GroupListComponent`): class `GroupList`. It holds the component's five state variables. Its methods are the fetch completion, the three change handlers, the filter recomputation and the reset. `Consistent()` says that the visible list is `Filter` of the full list under the current criteria. Every handler and the reset re-establish it whatever the state before.

Behaviour that follows the code rather than a cleaner reading of it:

- Any non-empty privacy value other than `"open"` selects closed groups, not only `"closed"`.
- The colour is compared as an arbitrary string, not checked against the menu's colours.
- An entry value other than `"withFriends"` and `"withoutFriends"` lets every group through. This covers `""`, which is what a reset sets, and `"all"`, the menu's "all" item.
- `fetchAndSetGroups` tests `if (groupList)`, which is true of every array, so the load always assigns. It does not re-apply the current criteria. The visible list is therefore consistent after a load exactly when the criteria keep every fetched group. No criterion is set at mount. But the menus are live during the fetch delay, and a criterion picked then survives the load while the full list is shown (see "## Findings").

## Model

| member | source | states |
|---|---|---|
| Sequences.Select | components/GroupList.tsx:67-81 | a pass never lengthens the list and every element it keeps satisfies the pass's predicate |
| Sequences.SelectEmbeds | components/GroupList.tsx:67-81 | a pass's result is the input's own elements at strictly increasing positions, and the kept positions are exactly those whose element satisfies the predicate |
| Sequences.SelectMembership | components/GroupList.tsx:67-81 | an element is in a pass's result iff it is in the input and satisfies the predicate |
| Sequences.SelectFusion | components/GroupList.tsx:65-82 | two successive passes equal one pass by the conjunction of their predicates |
| Sequences.SelectCommutes | components/GroupList.tsx:65-82 | two successive passes give the same list in either order |
| Sequences.SelectPartition | components/GroupList.tsx:74-81 | a pass and the pass by the negated predicate together hold every input element exactly as often as the input, and their lengths add up to the input's |
| GroupFilter.FilterPasses | components/GroupList.tsx:64-83 | running the colour, privacy and entry passes only when each criterion is active yields exactly the list of groups that pass every active criterion |
| GroupFilter.FilterIsOrderedSubsequence | components/GroupList.tsx:64-83 | the visible list is an order-preserving subsequence of the full list made of its unaltered records, and position i of the full list is visible iff its group passes every criterion |
| GroupFilter.FilterMembership | components/GroupList.tsx:64-82 | a group is visible iff it is in the full list, has the colour when one is set, is open for "open" and closed for any other non-empty privacy, has friends for "withFriends" and has none (absent or empty) for "withoutFriends" |
| GroupFilter.FilterInactive | components/GroupList.tsx:65-82 | with empty colour and privacy and an entry other than "withFriends"/"withoutFriends" (such as "" or "all") the visible list is the full list |
| GroupFilter.Rejected | components/GroupList.tsx:66-81 | whenever some criterion is active there is a group that it rejects |
| GroupFilter.FilterKeepsAllIffInactive | components/GroupList.tsx:66-81 | every list is shown in full iff no criterion is active, in both directions |
| GroupFilter.FilterIdempotent | components/GroupList.tsx:64-83 | filtering the visible list again with the same criteria returns it unchanged |
| GroupFilter.FilterColorAndPrivacy | components/GroupList.tsx:66-73 | with a colour every visible group has that colour; with "open" every visible group is open; with any other non-empty privacy every visible group is closed |
| GroupFilter.EntryPartition | components/GroupList.tsx:74-81 | "withFriends" keeps only groups with friends and "withoutFriends" only groups without; the first is the friend-holding part of the colour/privacy result, and the two together partition that result as a multiset and by length |
| GroupFilter.FilterTightening | components/GroupList.tsx:64-83 | setting a criterion that was off, or keeping it, never shows more groups: the tighter visible list is the looser one filtered again |
| GroupFilter.RunPassesSelect | components/GroupList.tsx:65-82 | running a sequence of dimension passes equals one pass by the conjunction of all of them |
| GroupFilter.PassesInAnyOrder | components/GroupList.tsx:64-82 | running the three dimension passes in any order, repeats allowed, yields the visible list |
| GroupListComponent.GroupList.constructor | components/GroupList.tsx:25-29 | the component starts with both lists empty and all three criteria empty, which is a consistent state |
| GroupListComponent.GroupList.FetchAndSetGroups | components/GroupList.tsx:31-37 | a load sets both the full and the visible list to the fetched list and leaves the criteria alone; the state is consistent iff the criteria keep every fetched group, in particular when none is set |
| GroupListComponent.GroupList.FetchAndSetGroupsRefiltered | components/GroupList.tsx:31-37 | corrected load: sets the full list, re-applies the current criteria to it and leaves them alone, so the state is consistent whatever was picked before the load |
| GroupListComponent.StaleListAfterLoad | components/GroupList.tsx:31-37 | with the load as written, picking "blue" before a load of a blue and a red group leaves the menu at "blue", a red group visible and the state inconsistent |
| GroupListComponent.RefilteredAfterLoad | components/GroupList.tsx:31-37 | the same sequence with the corrected load shows only blue groups and ends consistent |
| GroupListComponent.GroupList.FilterGroups | components/GroupList.tsx:64-84 | the visible list becomes the filter of the full list under the given criteria, and nothing else changes |
| GroupListComponent.GroupList.HandleColorFilterChange | components/GroupList.tsx:43-48 | only the colour criterion changes, to the new value; the full list is unchanged; the visible list is recomputed from it with the new colour and the current privacy and entry |
| GroupListComponent.GroupList.HandlePrivacyFilterChange | components/GroupList.tsx:50-55 | only the privacy criterion changes, to the new value; the full list is unchanged; the visible list is recomputed from it with the new privacy and the current colour and entry |
| GroupListComponent.GroupList.HandleEntryFilterChange | components/GroupList.tsx:57-62 | only the entry criterion changes, to the new value; the full list is unchanged; the visible list is recomputed from it with the new entry and the current colour and privacy |
| GroupListComponent.GroupList.ResetFilters | components/GroupList.tsx:86-91 | all three criteria become empty, the full list is unchanged and the visible list becomes the full list, which is consistent |

## Left out

- api/api.ts is not part of this model. It performs the fetch: a fixed one-second delay, an HTTP request, JSON parsing, and a thrown error on a non-200 status or an empty array. `FetchAndSetGroups` takes the fetched list as a parameter instead.
- The failed fetch is not modelled. The thrown error rejects the component's async loader before any state is set. The state is left as it was: both lists empty, plus any criterion picked during the delay.
- React scheduling is not modelled: `useState` batching and the mount-time `useEffect` that starts the fetch. State updates are synchronous assignments. This matches what the handlers compute, because they pass the new value straight to the filter instead of reading it back from state.
- Rendering is not modelled: the table, the menus, avatars, the friend-count text and the accordion's `disabled` flag. These only display the visible list.
- The menus' fixed colour values are not modelled, since the filter compares arbitrary strings.
- The `id`, `name`, `members_count` and friend-name fields are carried in `Group` but never inspected. The filter only reads `avatar_color`, `closed` and `friends`.
- types/types.ts is not part of this model. The `Group` record follows the fields the component reads and renders.

## Findings

| source | as written | input that shows it | evidently intended | confidence | as-written member | corrected member |
|---|---|---|---|---|---|---|
| components/GroupList.tsx:31-37 | a successful load sets the visible list to the whole fetched list without applying the criteria currently selected in the menus | pick colour "blue" during the fetch delay, then load [a blue group, a red group]: the menu says "blue" and the red group is shown | the visible list always matches the selected criteria, so the load re-applies them | medium, not executed | GroupListComponent.StaleListAfterLoad | GroupListComponent.GroupList.FetchAndSetGroupsRefiltered |
