# People and duaas: the client-side snapshot store

This project models the state layer of a small list-keeping web application.
A user keeps a list of people. Each person has an ordered checklist of short
notes called duaas, and each duaa can be marked done or not done. Storage lives
in a hosted database. The application keeps an in-memory snapshot of it, the
people provider. Each mutation makes one remote call and changes the snapshot
only after that call succeeds.

What is modelled:

- **Records** (`records.dfy`): `Duaa` (id, person id, text, done flag, creation
  time) and `Person` (id, name, duaas). The module also defines the snapshot's
  schema invariant `Consistent`: person ids are unique, and every nested duaa
  refers back to its person.
- **Remote calls** (`remote.dfy`): a round trip is a `Reply<T>` or an `Outcome`,
  either success with the returned record or failure with an opaque
  `RemoteError`. `AddPerson` models the wrapper that gives a new person an empty
  duaa list. `IsInsertedDuaa` and `IsPatchedDuaa` state what the database
  returns for a duaa insert and for a duaa update (a `Patch` of one column).
- **Updaters** (`transforms.dfy`): the pure functions the provider passes to
  `setPeople(prev => …)`: prepend a person, filter out a person, append a duaa,
  replace a duaa by the server's record, filter out a duaa. Lemmas prove that
  each one keeps the snapshot consistent, that removing a person removes all of
  their duaas, that appending adds exactly one duaa to the snapshot, and that a
  replacement keeps the number of duaas.
- **Search** (`search.dfy`): the derived `filteredPeople` view. It uses a
  case-insensitive substring match on the name or on any duaa text. `Filter`
  (`seqs.dfy`) models JavaScript's `filter`, with order preserved.
- **Store** (`store.dfy`): class `PeopleStore` with the provider's three state
  cells: `people`, `loading` and `searchQuery`. Each method takes the remote
  reply as a parameter. On failure a mutation leaves the snapshot untouched and
  returns the error. A failed load keeps the snapshot and returns nothing,
  because `loadPeople` only reports the error.
- **Person page** (`persondetail.dfy`): the page finds its person by route id
  in the filtered view. It then shows total, completed and remaining counts and
  a completion badge.

`createPerson` sends any name to the insert, including an empty one
(`src/contexts/PeopleContext.jsx:38-48`), and the model does too.

## Model

| member | source | states |
|---|---|---|
| `Seqs.Filter` | src/contexts/PeopleContext.jsx:53 | `filter` returns an order-preserving subsequence. It holds exactly the elements that satisfy the predicate. It has the same length as the input iff every element is kept, and then it equals the input |
| `Seqs.FilterKeepsMultiplicity` | src/contexts/PeopleContext.jsx:53 | `filter` keeps every copy of an element that passes and no copy of one that fails |
| `Seqs.SubsequenceKeepsOrder` | src/contexts/PeopleContext.jsx:53 | two positions of a filtered list come from two positions of the original list in the same order |
| `Seqs.SubsequenceReflexive` | src/contexts/PeopleContext.jsx:154 | a list is a subsequence of itself, which covers the unfiltered view |
| `Seqs.FilterCongruent` | src/contexts/PeopleContext.jsx:147-153 | filtering with two predicates that agree on every element gives the same list |
| `Remote.AddPerson` | src/lib/supabase.js:30-43 | a successful insert yields a person with the inserted row's id and name and an empty duaa list. A failure passes the store's error through unchanged |
| `Remote.IsInsertedDuaa` | src/lib/supabase.js:56-69 | definition: the row the duaa insert returns carries the person id and text that were sent and is not done. `Store.PeopleStore.CreateDuaa` keeps the snapshot consistent under it |
| `Remote.IsPatchedDuaa` | src/lib/supabase.js:71-84 | definition: the row the duaa update returns has the selected id and the patched column's new value. `Store.PeopleStore.ApplyUpdate` shows that value on the duaa under it |
| `Transforms.PrependPerson` | src/contexts/PeopleContext.jsx:41 | the new person comes first, followed by the old snapshot unchanged, so the id list gains the new id in front |
| `Transforms.RemovePersonById` | src/contexts/PeopleContext.jsx:53 | no remaining person has the id. Every other person is kept, with their nested duaas, as often as before and in the same relative order. The snapshot is unchanged iff no person had that id |
| `Transforms.UpdateDuaasOf` | src/contexts/PeopleContext.jsx:82-93 | the `map` over people keeps length, ids, names and every other person. Only the duaas of the people with the id change, to `f` of the old list |
| `Transforms.AppendDuaa` | src/contexts/PeopleContext.jsx:64-70 | the matching person's duaas become the old list plus the new duaa at the end. Ids, names, other people and the number of people are unchanged. With no matching person the snapshot is unchanged |
| `Transforms.ReplaceById` | src/contexts/PeopleContext.jsx:87-89 | the inner `map` keeps the length and every duaa with another id. Every entry with the id becomes the returned record, whatever id that record carries. An echoed id keeps the list of ids, and a list without the id is unchanged |
| `Transforms.ReplaceDuaa` | src/contexts/PeopleContext.jsx:82-93 | inside the matching person, every duaa with the id becomes the returned record as a whole, not merged field by field. List lengths, order, other duaas and other people are unchanged |
| `Transforms.RemoveById` | src/contexts/PeopleContext.jsx:134 | the duaa list loses exactly the entries with the id and keeps every other entry, as often as before and in order |
| `Transforms.RemoveDuaa` | src/contexts/PeopleContext.jsx:129-138 | only the named person's list loses the id: it becomes `RemoveById` of the old list, so every other duaa keeps its copies and order. Other people are unchanged even when one of their duaas has the same id |
| `Transforms.PrependKeepsConsistent` | src/contexts/PeopleContext.jsx:41 | prepending a created person with a fresh id and no duaas keeps ids unique and ownership intact |
| `Transforms.SubsequenceKeepsConsistent` | src/contexts/PeopleContext.jsx:53 | deleting people from a consistent snapshot while keeping the rest in order leaves ids unique and ownership intact |
| `Transforms.RemovePersonCascades` | src/contexts/PeopleContext.jsx:53 | removing a person keeps the snapshot consistent. Afterwards no duaa refers to the removed id, so the cascade is complete |
| `Transforms.AppendDuaaKeepsConsistent` | src/contexts/PeopleContext.jsx:64-70 | appending a duaa whose person id is the target person keeps the snapshot consistent |
| `Transforms.AppendDuaaAddsOne` | src/contexts/PeopleContext.jsx:64-70 | with unique ids, creating a duaa adds exactly one duaa to the snapshot if the person is present, and none otherwise |
| `Transforms.ReplaceDuaaKeepsConsistent` | src/contexts/PeopleContext.jsx:82-93 | replacing a duaa by a record that belongs to the same person keeps the snapshot consistent |
| `Transforms.ReplaceDuaaKeepsTotal` | src/contexts/PeopleContext.jsx:107-118 | toggling or editing never changes the number of duaas in the snapshot |
| `Transforms.ReplaceDuaaKeepsDuaaIds` | src/contexts/PeopleContext.jsx:112-114 | when the server returns the same id, every person's list of duaa ids is unchanged |
| `Transforms.RemoveDuaaKeepsConsistent` | src/contexts/PeopleContext.jsx:129-138 | removing a duaa keeps the snapshot consistent |
| `Search.LowerChar` | src/contexts/PeopleContext.jsx:149-151 | `toLowerCase` on one character: the result is never an upper-case letter. An upper-case letter becomes the matching lower-case one, and any other character is unchanged |
| `Search.Lower` | src/contexts/PeopleContext.jsx:149-151 | the lowered string has the same length and no upper-case letters. Each upper-case letter becomes its lower-case partner, and every other character is unchanged. `Search.LowerIdempotent` proves lowering twice changes nothing |
| `Search.Contains` | src/contexts/PeopleContext.jsx:149-151 | `includes` always finds the empty needle and never finds a needle longer than the string. `Search.ContainsIffOccurs` ties it to occurrence at a position |
| `Search.MatchesQuery` | src/contexts/PeopleContext.jsx:148-152 | the filter callback: the empty query matches everyone. A person matches when the lowered name contains the lowered query, and also when some duaa's lowered text contains it |
| `Search.FilteredPeople` | src/contexts/PeopleContext.jsx:146-154 | the view is an order-preserving subsequence of the people. It holds exactly those, each as often as in the snapshot, whose lowered name or some lowered duaa text contains the lowered query. An empty query gives the whole list |
| `Search.EmptyQueryShortcut` | src/contexts/PeopleContext.jsx:146-154 | skipping the filter for an empty query gives the same list as filtering by it |
| `Search.ContainsIffOccurs` | src/contexts/PeopleContext.jsx:149-151 | `includes` holds iff the needle occurs at some position of the string |
| `Search.QueryCaseIrrelevant` | src/contexts/PeopleContext.jsx:149-151 | searching for the lowered query selects the same people as the query itself |
| `Search.FilterExample` | src/contexts/PeopleContext.jsx:146-154 | for Omar ("health") and Sara ("exam"), "heal" selects only Omar and "" selects both in order |
| `Store.PeopleStore.constructor` | src/contexts/PeopleContext.jsx:17-19 | the store starts empty, loading, with an empty query, and consistent |
| `Store.PeopleStore.View` | src/contexts/PeopleContext.jsx:157 | consumers see a subsequence of the snapshot holding every person that matches the query, as often as in the snapshot, and no other, or the whole snapshot for an empty query |
| `Store.PeopleStore.SetSearchQuery` | src/contexts/PeopleContext.jsx:19 | only the query changes |
| `Store.PeopleStore.LoadPeople` | src/contexts/PeopleContext.jsx:25-36 | a successful fetch replaces the whole snapshot, so repeated loads of the same data give the same snapshot. A failed fetch leaves it untouched. `loading` is false afterwards in both cases |
| `Store.PeopleStore.CreatePerson` | src/contexts/PeopleContext.jsx:38-48 | on success the new person is followed by the old snapshot and is returned. When the inserted row echoes the name, the new person shows that name and has no duaas. On failure nothing changes and the error is returned. Consistency is kept when the new id is fresh |
| `Store.PeopleStore.RemovePerson` | src/contexts/PeopleContext.jsx:50-59 | on success the person is filtered out. On failure nothing changes and the error is returned. Consistency is always kept |
| `Store.PeopleStore.CreateDuaa` | src/contexts/PeopleContext.jsx:61-77 | on success the returned duaa is appended to the person. On failure nothing changes and the error is returned. Consistency is kept when the server echoes the inserted row |
| `Store.PeopleStore.ToggleDuaa` | src/contexts/PeopleContext.jsx:79-102 | on success the returned record replaces the duaa. When that record carries the requested done flag, the duaa shows it afterwards. On failure nothing changes and the error is returned |
| `Store.PeopleStore.EditDuaa` | src/contexts/PeopleContext.jsx:104-124 | on success the returned record replaces the duaa. When that record carries the new text, the duaa shows it afterwards. On failure nothing changes and the error is returned |
| `Store.PeopleStore.ApplyUpdate` | src/contexts/PeopleContext.jsx:82-93 | the replacement step shared by toggle and edit, applied only on success. A reply carrying the patched column makes that column visible on the duaa |
| `Store.PeopleStore.RemoveDuaa` | src/contexts/PeopleContext.jsx:126-144 | on success the duaa leaves the named person's list. On failure nothing changes and the error is returned. Consistency is always kept |
| `Store.LifecycleCreate` | src/contexts/PeopleContext.jsx:38-102 | creating Ali, adding a duaa and ticking it leaves exactly Ali with the server's ticked record. A failed toggle in between leaves the snapshot as it was |
| `Store.LifecycleRemove` | src/contexts/PeopleContext.jsx:50-144 | removing Ali's only duaa and then Ali leaves an empty snapshot |
| `PersonDetail.FindPerson` | src/components/People/PersonDetail.jsx:20 | the result is absent iff no person has the id. Otherwise it is the person at the first position with that id |
| `PersonDetail.FilterDoneCounts` | src/components/People/PersonDetail.jsx:43 | `filter(duaa => duaa.is_done).length` equals the number of done duaas counted one by one |
| `PersonDetail.Summarize` | src/components/People/PersonDetail.jsx:42-44 | total is the list length. Completed is the number of done duaas, between 0 and total, and is 0 iff nothing is done. Remaining is total minus completed and never negative. Complete iff the list is non-empty and every duaa is done |
| `PersonDetail.RemainingCountsOpen` | src/components/People/PersonDetail.jsx:143 | the remaining count equals the number of duaas not done |
| `PersonDetail.Render` | src/components/People/PersonDetail.jsx:20-44 | the page shows a spinner iff loading. It shows "Person Not Found" iff not loading and no visible person has the route id. Otherwise it shows the first visible person with that id and that person's summary |
| `PersonDetail.HiddenPersonNotFound` | src/components/People/PersonDetail.jsx:17-40 | the lookup runs on the filtered view, so while the query hides a person, that person's page reports "Person Not Found" |

## Left out

- Network calls are parameters. Each store method receives the reply its remote call would produce. The Supabase client, its queries and the cascade delete on the server side are not modelled.
- Toast notifications and `console.error` output are left out. They are user-facing side channels and are not state.
- Concurrency is left out: several mutations in flight, and last-response-wins when a toggle and an edit race on one duaa. Each `setPeople` updater is one atomic step.
- The intermediate `loading = true` of `loadPeople` cannot be observed in the model, because the method runs as one atomic step.
- Mount-time loading (`useEffect`) is left out. The constructor only sets the initial state, and `LoadPeople` is a separate call.
- `fetchPeople`'s optional `user_id` filter (src/lib/supabase.js:20-22) is left out, because the provider never passes a user id.
- Ids are modelled as strings. The page compares the route parameter, a string, with `===` (src/components/People/PersonDetail.jsx:15, 20), so the model assumes the database returns string ids. Numeric ids would never match there.
- The configuration fallback in src/lib/supabase.js:6-15 is left out.
- Columns of a person row other than id and name (such as `user_id` and `created_at`) are left out. The spread `{ ...person, duaas }` keeps them unchanged, just as the model keeps id and name.
- `toLowerCase` is modelled on ASCII letters only. Full Unicode case mapping is not.
- The bulk "reset all" action of the people list is left out. It is a remote update followed by a reload, with no local state logic.
- Rendering, routing, animation and the modal and button flags are left out.
- The floating-point progress percentage and its rounding (src/components/People/PersonDetail.jsx:154, 162) are left out.
- Store.PeopleStore.CreatePerson, Store.PeopleStore.CreateDuaa, Store.PeopleStore.ToggleDuaa, Store.PeopleStore.EditDuaa: consistency is promised only when the server's reply satisfies the conditions the database guarantees: a fresh id, an echoed person id. The store itself does not check them.
