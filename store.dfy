/**
 * The people provider: one long-lived store holding the snapshot, the
 * loading flag and the search query. Every mutation awaits one remote call,
 * whose reply is a parameter here, and applies its result only on success;
 * a failed call leaves the snapshot as it was and is handed back to the caller.
 */
module Store {
  import opened Seqs
  import opened Records
  import opened Remote
  import opened Transforms
  import opened Search

  class PeopleStore {
    var people: seq<Person>
    var loading: bool
    var searchQuery: string

    /** Initial state of the three state cells: no people, loading, empty query. */
    constructor ()
      ensures people == [] && loading && searchQuery == ""
      ensures Consistent(people)
    {
      people := [];
      loading := true;
      searchQuery := "";
    }

    /** The list consumers see (`people: filteredPeople`). */
    function View(): (r: seq<Person>)
      reads this
      ensures IsSubsequence(r, people)
      ensures forall p | p in r :: MatchesQuery(p, searchQuery)
      ensures forall p | p in people && MatchesQuery(p, searchQuery) :: p in r
      ensures forall p | p in people :: multiset(r)[p] == if MatchesQuery(p, searchQuery) then multiset(people)[p] else 0
      ensures searchQuery == "" ==> r == people
    {
      FilteredPeople(people, searchQuery)
    }

    /** `setSearchQuery`. */
    method SetSearchQuery(query: string)
      modifies this
      ensures searchQuery == query
      ensures people == old(people) && loading == old(loading)
    {
      searchQuery := query;
    }

    /**
     * `loadPeople`: replace the whole snapshot with what was fetched; on a
     * failed fetch keep it. Either way the loading flag ends cleared.
     */
    method LoadPeople(reply: Reply<seq<Person>>)
      modifies this
      ensures people == (if reply.Ok? then reply.value else old(people))
      ensures !loading && searchQuery == old(searchQuery)
    {
      loading := true;
      if reply.Ok? {
        people := reply.value;
      }
      loading := false;
    }

    /** `createPerson(name)`: the inserted person goes first; the new person or the error is returned. */
    method CreatePerson(name: string, reply: Reply<PersonRow>) returns (result: Reply<Person>)
      modifies this
      ensures result == AddPerson(reply)
      ensures people == (if result.Ok? then PrependPerson(old(people), result.value) else old(people))
      ensures reply.Ok? && reply.value.name == name ==> people[0].name == name && people[0].duaas == []
      ensures loading == old(loading) && searchQuery == old(searchQuery)
      ensures old(Consistent(people)) && (reply.Ok? ==> reply.value.id !in PersonIds(old(people))) ==>
        Consistent(people)
    {
      result := AddPerson(reply);
      if result.Ok? {
        if Consistent(people) && result.value.id !in PersonIds(people) {
          PrependKeepsConsistent(people, result.value);
        }
        people := PrependPerson(people, result.value);
      }
    }

    /** `removePerson(id)`: drop the person and their duaas once the delete is confirmed. */
    method RemovePerson(id: Id, reply: Outcome) returns (result: Outcome)
      modifies this
      ensures result == reply
      ensures people == (if reply.Pass? then RemovePersonById(old(people), id) else old(people))
      ensures loading == old(loading) && searchQuery == old(searchQuery)
      ensures old(Consistent(people)) ==> Consistent(people)
    {
      result := reply;
      if reply.Pass? {
        if Consistent(people) {
          RemovePersonCascades(people, id);
        }
        people := RemovePersonById(people, id);
      }
    }

    /** `createDuaa(personId, text)`: the inserted duaa goes last in that person's list. */
    method CreateDuaa(personId: Id, text: string, reply: Reply<Duaa>) returns (result: Reply<Duaa>)
      modifies this
      ensures result == reply
      ensures people == (if reply.Ok? then AppendDuaa(old(people), personId, reply.value) else old(people))
      ensures loading == old(loading) && searchQuery == old(searchQuery)
      ensures old(Consistent(people)) && (reply.Ok? ==> IsInsertedDuaa(reply.value, personId, text)) ==>
        Consistent(people)
    {
      result := reply;
      if reply.Ok? {
        if Consistent(people) && IsInsertedDuaa(reply.value, personId, text) {
          AppendDuaaKeepsConsistent(people, personId, reply.value);
        }
        people := AppendDuaa(people, personId, reply.value);
      }
    }

    /** `toggleDuaa(personId, duaaId, isDone)`: the server's updated record replaces the local one. */
    method ToggleDuaa(personId: Id, duaaId: Id, isDone: bool, reply: Reply<Duaa>) returns (result: Outcome)
      modifies this
      ensures result == (if reply.Ok? then Pass else Fail(reply.error))
      ensures people == (if reply.Ok? then ReplaceDuaa(old(people), personId, duaaId, reply.value) else old(people))
      ensures loading == old(loading) && searchQuery == old(searchQuery)
      ensures old(Consistent(people)) && (reply.Ok? ==> reply.value.personId == personId) ==>
        Consistent(people)
      ensures reply.Ok? && IsPatchedDuaa(reply.value, duaaId, SetDone(isDone)) ==>
        forall i, j | 0 <= i < |people| && people[i].id == personId && 0 <= j < |people[i].duaas| &&
          old(people)[i].duaas[j].id == duaaId :: IsPatchedDuaa(people[i].duaas[j], duaaId, SetDone(isDone))
    {
      result := ApplyUpdate(personId, duaaId, SetDone(isDone), reply);
    }

    /** `editDuaa(personId, duaaId, newText)`: same replacement as a toggle, after a text update. */
    method EditDuaa(personId: Id, duaaId: Id, newText: string, reply: Reply<Duaa>) returns (result: Outcome)
      modifies this
      ensures result == (if reply.Ok? then Pass else Fail(reply.error))
      ensures people == (if reply.Ok? then ReplaceDuaa(old(people), personId, duaaId, reply.value) else old(people))
      ensures loading == old(loading) && searchQuery == old(searchQuery)
      ensures old(Consistent(people)) && (reply.Ok? ==> reply.value.personId == personId) ==>
        Consistent(people)
      ensures reply.Ok? && IsPatchedDuaa(reply.value, duaaId, SetText(newText)) ==>
        forall i, j | 0 <= i < |people| && people[i].id == personId && 0 <= j < |people[i].duaas| &&
          old(people)[i].duaas[j].id == duaaId :: IsPatchedDuaa(people[i].duaas[j], duaaId, SetText(newText))
    {
      result := ApplyUpdate(personId, duaaId, SetText(newText), reply);
    }

    /**
     * The step toggle and edit share once `updateDuaa(duaaId, patch)` has answered.
     * When the reply carries the patched column, every duaa with that id in the
     * person's list shows it afterwards.
     */
    method ApplyUpdate(personId: Id, duaaId: Id, patch: Patch, reply: Reply<Duaa>) returns (result: Outcome)
      modifies this
      ensures result == (if reply.Ok? then Pass else Fail(reply.error))
      ensures people == (if reply.Ok? then ReplaceDuaa(old(people), personId, duaaId, reply.value) else old(people))
      ensures loading == old(loading) && searchQuery == old(searchQuery)
      ensures old(Consistent(people)) && (reply.Ok? ==> reply.value.personId == personId) ==>
        Consistent(people)
      ensures reply.Ok? && IsPatchedDuaa(reply.value, duaaId, patch) ==>
        forall i, j | 0 <= i < |people| && people[i].id == personId && 0 <= j < |people[i].duaas| &&
          old(people)[i].duaas[j].id == duaaId :: IsPatchedDuaa(people[i].duaas[j], duaaId, patch)
    {
      if reply.Ok? {
        if Consistent(people) && reply.value.personId == personId {
          ReplaceDuaaKeepsConsistent(people, personId, duaaId, reply.value);
        }
        people := ReplaceDuaa(people, personId, duaaId, reply.value);
        result := Pass;
      } else {
        result := Fail(reply.error);
      }
    }

    /** `removeDuaa(personId, duaaId)`: drop the duaa from that person's list once the delete is confirmed. */
    method RemoveDuaa(personId: Id, duaaId: Id, reply: Outcome) returns (result: Outcome)
      modifies this
      ensures result == reply
      ensures people == (if reply.Pass? then Transforms.RemoveDuaa(old(people), personId, duaaId) else old(people))
      ensures loading == old(loading) && searchQuery == old(searchQuery)
      ensures old(Consistent(people)) ==> Consistent(people)
    {
      result := reply;
      if reply.Pass? {
        if Consistent(people) {
          RemoveDuaaKeepsConsistent(people, personId, duaaId);
        }
        people := Transforms.RemoveDuaa(people, personId, duaaId);
      }
    }
  }

  /** The ticked duaa of the lifecycle scenario. */
  const TickedDuaa := Duaa("d1", "p1", "for health", true, "t0")

  /**
   * The full lifecycle against a cooperating server: create Ali, give Ali a
   * duaa, tick it, remove it, remove Ali; a failed call in between changes nothing.
   */
  method Lifecycle()
  {
    var store := new PeopleStore();
    store.LoadPeople(Ok([]));
    assert store.people == [] && !store.loading;
    LifecycleCreate(store);
    LifecycleRemove(store);
    assert store.people == [];
  }

  /** Ali's snapshot after one duaa was appended. */
  lemma AppendToAli(d: Duaa)
    ensures AppendDuaa([Person("p1", "Ali", [])], "p1", d) == [Person("p1", "Ali", [d])]
  {
    var r := AppendDuaa([Person("p1", "Ali", [])], "p1", d);
    assert |r| == 1 && r[0].id == "p1" && r[0].name == "Ali" && r[0].duaas == [] + [d];
    assert r[0] == Person("p1", "Ali", [d]);
    assert r == [r[0]];
  }

  /** Ali's snapshot after the server's record replaced the only duaa. */
  lemma ReplaceAlisDuaa(d: Duaa, updated: Duaa)
    requires d.id == "d1"
    ensures ReplaceDuaa([Person("p1", "Ali", [d])], "p1", "d1", updated) == [Person("p1", "Ali", [updated])]
  {
    var r := ReplaceDuaa([Person("p1", "Ali", [d])], "p1", "d1", updated);
    assert |r| == 1 && r[0].id == "p1" && r[0].name == "Ali";
    assert |r[0].duaas| == 1 && r[0].duaas[0] == updated;
    assert r[0].duaas == [updated];
    assert r[0] == Person("p1", "Ali", [updated]);
    assert r == [r[0]];
  }

  /** First half of the lifecycle: Ali with one duaa, ticked; a failed toggle in between. */
  method LifecycleCreate(store: PeopleStore)
    requires store.people == []
    modifies store
    ensures store.people == [Person("p1", "Ali", [TickedDuaa])]
  {
    var ali := store.CreatePerson("Ali", Ok(PersonRow("p1", "Ali")));
    assert ali == Ok(Person("p1", "Ali", []));
    assert store.people == [Person("p1", "Ali", [])];

    var d := TickedDuaa.(isDone := false);
    AppendToAli(d);
    var added := store.CreateDuaa("p1", "for health", Ok(d));
    assert store.people == [Person("p1", "Ali", [d])];

    var failed := store.ToggleDuaa("p1", "d1", true, Err(RemoteError("offline")));
    assert failed.Fail? && store.people == [Person("p1", "Ali", [d])];

    ReplaceAlisDuaa(d, TickedDuaa);
    var toggled := store.ToggleDuaa("p1", "d1", true, Ok(TickedDuaa));
  }

  /** Second half of the lifecycle: remove the duaa, then Ali. */
  method LifecycleRemove(store: PeopleStore)
    requires store.people == [Person("p1", "Ali", [TickedDuaa])]
    modifies store
    ensures store.people == []
  {
    var removed := store.RemoveDuaa("p1", "d1", Pass);
    assert store.people[0].duaas == [];
    var gone := store.RemovePerson("p1", Pass);
  }
}
