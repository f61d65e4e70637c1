/**
 * The pure snapshot updaters the store hands to `setPeople(prev => ...)`,
 * one per mutation, and the consistency facts each of them keeps.
 */
module Transforms {
  import opened Seqs
  import opened Records

  /** createPerson's updater: the new person goes in front, most recent first. */
  function PrependPerson(people: seq<Person>, p: Person): (r: seq<Person>)
    ensures |r| == |people| + 1 && r[0] == p && r[1..] == people
    ensures PersonIds(r) == [p.id] + PersonIds(people)
  {
    [p] + people
  }

  /** removePerson's updater: drop every person with that id, nested duaas included. */
  function RemovePersonById(people: seq<Person>, id: Id): (r: seq<Person>)
    ensures IsSubsequence(r, people)
    ensures forall p | p in r :: p in people && p.id != id
    ensures forall p | p in people && p.id != id :: p in r
    ensures forall p | p in people :: multiset(r)[p] == if p.id != id then multiset(people)[p] else 0
    ensures |r| == |people| <==> id !in PersonIds(people)
    ensures id !in PersonIds(people) ==> r == people
  {
    IdInPersonIds(people, id);
    FilterKeepsMultiplicity(people, (p: Person) => p.id != id);
    Filter(people, (p: Person) => p.id != id)
  }

  /**
   * The shape shared by the duaa updaters: `prev.map(person => person.id === personId
   * ? { ...person, duaas: f(person.duaas) } : person)`.
   */
  function UpdateDuaasOf(people: seq<Person>, personId: Id, f: seq<Duaa> -> seq<Duaa>): (r: seq<Person>)
    ensures |r| == |people| && PersonIds(r) == PersonIds(people)
    ensures forall i | 0 <= i < |people| :: r[i].id == people[i].id && r[i].name == people[i].name
    ensures forall i | 0 <= i < |people| && people[i].id == personId :: r[i].duaas == f(people[i].duaas)
    ensures forall i | 0 <= i < |people| && people[i].id != personId :: r[i] == people[i]
  {
    seq(|people|, i requires 0 <= i < |people| =>
      if people[i].id == personId then people[i].(duaas := f(people[i].duaas)) else people[i])
  }

  /** createDuaa's updater: the returned duaa goes at the end of the matching person's list. */
  function AppendDuaa(people: seq<Person>, personId: Id, d: Duaa): (r: seq<Person>)
    ensures |r| == |people| && PersonIds(r) == PersonIds(people)
    ensures forall i | 0 <= i < |people| :: r[i].id == people[i].id && r[i].name == people[i].name
    ensures forall i | 0 <= i < |people| && people[i].id == personId :: r[i].duaas == people[i].duaas + [d]
    ensures forall i | 0 <= i < |people| && people[i].id != personId :: r[i] == people[i]
    ensures personId !in PersonIds(people) ==> r == people
  {
    IdInPersonIds(people, personId);
    UpdateDuaasOf(people, personId, ds => ds + [d])
  }

  /** The inner `duaas.map(duaa => duaa.id === duaaId ? updated : duaa)`. */
  function ReplaceById(duaas: seq<Duaa>, duaaId: Id, updated: Duaa): (r: seq<Duaa>)
    ensures |r| == |duaas|
    ensures forall d | d in r :: (d in duaas && d.id != duaaId) || d == updated
    ensures forall j | 0 <= j < |duaas| && duaas[j].id != duaaId :: r[j] == duaas[j]
    ensures forall j | 0 <= j < |duaas| && duaas[j].id == duaaId :: r[j] == updated
    ensures updated.id == duaaId ==> DuaaIds(r) == DuaaIds(duaas)
    ensures (forall d | d in duaas :: d.id != duaaId) ==> r == duaas
  {
    seq(|duaas|, j requires 0 <= j < |duaas| => if duaas[j].id == duaaId then updated else duaas[j])
  }

  /**
   * toggleDuaa's and editDuaa's updater: inside the matching person, every duaa
   * with that id becomes the server's record as a whole (no field merge).
   */
  function ReplaceDuaa(people: seq<Person>, personId: Id, duaaId: Id, updated: Duaa): (r: seq<Person>)
    ensures |r| == |people| && PersonIds(r) == PersonIds(people)
    ensures forall i | 0 <= i < |people| ::
      r[i].id == people[i].id && r[i].name == people[i].name && |r[i].duaas| == |people[i].duaas|
    ensures forall i, j | 0 <= i < |people| && 0 <= j < |people[i].duaas| ::
      r[i].duaas[j] == if people[i].id == personId && people[i].duaas[j].id == duaaId then updated else people[i].duaas[j]
  {
    UpdateDuaasOf(people, personId, ds => ReplaceById(ds, duaaId, updated))
  }

  /** The inner `duaas.filter(duaa => duaa.id !== duaaId)`. */
  function RemoveById(duaas: seq<Duaa>, duaaId: Id): (r: seq<Duaa>)
    ensures IsSubsequence(r, duaas)
    ensures forall d | d in r :: d in duaas && d.id != duaaId
    ensures forall d | d in duaas && d.id != duaaId :: d in r
    ensures forall d | d in duaas :: multiset(r)[d] == if d.id != duaaId then multiset(duaas)[d] else 0
    ensures (forall d | d in duaas :: d.id != duaaId) ==> r == duaas
  {
    FilterKeepsMultiplicity(duaas, (d: Duaa) => d.id != duaaId);
    Filter(duaas, (d: Duaa) => d.id != duaaId)
  }

  /** removeDuaa's updater: the duaa leaves the named person's list only. */
  function RemoveDuaa(people: seq<Person>, personId: Id, duaaId: Id): (r: seq<Person>)
    ensures |r| == |people| && PersonIds(r) == PersonIds(people)
    ensures forall i | 0 <= i < |people| :: r[i].id == people[i].id && r[i].name == people[i].name
    ensures forall i | 0 <= i < |people| && people[i].id != personId :: r[i] == people[i]
    ensures forall i | 0 <= i < |people| && people[i].id == personId ::
      IsSubsequence(r[i].duaas, people[i].duaas) &&
      (forall d | d in r[i].duaas :: d in people[i].duaas && d.id != duaaId) &&
      (forall d | d in people[i].duaas && d.id != duaaId :: d in r[i].duaas)
    ensures forall i | 0 <= i < |people| && people[i].id == personId :: r[i].duaas == RemoveById(people[i].duaas, duaaId)
    ensures forall i, d | 0 <= i < |people| && people[i].id == personId && d in people[i].duaas ::
      multiset(r[i].duaas)[d] == if d.id != duaaId then multiset(people[i].duaas)[d] else 0
  {
    UpdateDuaasOf(people, personId, ds => RemoveById(ds, duaaId))
  }

  // ---------------------------------------------------------------------
  // Consistency with the remote schema
  // ---------------------------------------------------------------------

  /** A created person (fresh id, no duaas yet) can be prepended without breaking the snapshot. */
  lemma PrependKeepsConsistent(people: seq<Person>, p: Person)
    requires Consistent(people)
    requires p.duaas == [] && p.id !in PersonIds(people)
    ensures Consistent(PrependPerson(people, p))
  {
    var r := PrependPerson(people, p);
    forall i, j | 0 <= i < j < |r| ensures r[i].id != r[j].id {
      if i == 0 {
        assert PersonIds(people)[j - 1] == r[j].id;
      }
    }
  }

  /** Deleting people from a consistent snapshot, keeping the rest in order, leaves it consistent. */
  lemma SubsequenceKeepsConsistent(r: seq<Person>, people: seq<Person>)
    requires Consistent(people) && IsSubsequence(r, people)
    ensures Consistent(r)
  {
    forall i, j | 0 <= i < j < |r| ensures r[i].id != r[j].id {
      SubsequenceKeepsOrder(r, people, i, j);
    }
    forall i, j | 0 <= i < |r| && 0 <= j < |r[i].duaas| ensures r[i].duaas[j].personId == r[i].id {
      SubsequenceMember(r, people, i);
    }
  }

  /** Removing a person keeps the snapshot consistent and, with it, all of that person's duaas. */
  lemma RemovePersonCascades(people: seq<Person>, id: Id)
    requires Consistent(people)
    ensures Consistent(RemovePersonById(people, id))
    ensures forall p, d | p in RemovePersonById(people, id) && d in p.duaas :: d.personId != id
  {
    var r := RemovePersonById(people, id);
    SubsequenceKeepsConsistent(r, people);
    forall p, d | p in r && d in p.duaas ensures d.personId != id {
      var i :| 0 <= i < |r| && r[i] == p;
      var j :| 0 <= j < |p.duaas| && p.duaas[j] == d;
      assert r[i].duaas[j].personId == r[i].id;
    }
  }

  /** Appending a duaa that points at its person keeps the snapshot consistent. */
  lemma AppendDuaaKeepsConsistent(people: seq<Person>, personId: Id, d: Duaa)
    requires Consistent(people) && d.personId == personId
    ensures Consistent(AppendDuaa(people, personId, d))
  {
  }

  /** Replacing a duaa by a record that points at the same person keeps the snapshot consistent. */
  lemma ReplaceDuaaKeepsConsistent(people: seq<Person>, personId: Id, duaaId: Id, updated: Duaa)
    requires Consistent(people) && updated.personId == personId
    ensures Consistent(ReplaceDuaa(people, personId, duaaId, updated))
  {
  }

  /** Removing a duaa keeps the snapshot consistent. */
  lemma RemoveDuaaKeepsConsistent(people: seq<Person>, personId: Id, duaaId: Id)
    requires Consistent(people)
    ensures Consistent(RemoveDuaa(people, personId, duaaId))
  {
  }

  // ---------------------------------------------------------------------
  // Counting
  // ---------------------------------------------------------------------

  /** With unique ids, creating a duaa adds exactly one duaa to the snapshot, or none if the person is gone. */
  lemma {:induction false} AppendDuaaAddsOne(people: seq<Person>, personId: Id, d: Duaa)
    requires UniqueIds(people)
    ensures TotalDuaas(AppendDuaa(people, personId, d)) ==
            TotalDuaas(people) + (if personId in PersonIds(people) then 1 else 0)
  {
    if people != [] {
      var r := AppendDuaa(people, personId, d);
      var tail := AppendDuaa(people[1..], personId, d);
      assert r[1..] == tail;
      AppendDuaaAddsOne(people[1..], personId, d);
      assert PersonIds(people) == [people[0].id] + PersonIds(people[1..]);
    }
  }

  /** A duaa replacement never changes how many duaas the snapshot holds. */
  lemma {:induction false} ReplaceDuaaKeepsTotal(people: seq<Person>, personId: Id, duaaId: Id, updated: Duaa)
    ensures TotalDuaas(ReplaceDuaa(people, personId, duaaId, updated)) == TotalDuaas(people)
  {
    if people != [] {
      var r := ReplaceDuaa(people, personId, duaaId, updated);
      assert r[1..] == ReplaceDuaa(people[1..], personId, duaaId, updated);
      ReplaceDuaaKeepsTotal(people[1..], personId, duaaId, updated);
    }
  }

  /** When the server echoes the same id, a replacement keeps every person's list of duaa ids. */
  lemma ReplaceDuaaKeepsDuaaIds(people: seq<Person>, personId: Id, duaaId: Id, updated: Duaa)
    requires updated.id == duaaId
    ensures forall i | 0 <= i < |people| ::
      DuaaIds(ReplaceDuaa(people, personId, duaaId, updated)[i].duaas) == DuaaIds(people[i].duaas)
  {
  }
}
