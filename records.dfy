/** The records the store keeps: people, each owning an ordered list of duaas. */
module Records {

  /** An opaque row identifier assigned by the remote store. */
  type Id = string

  /** One checklist item, as the remote `duaas` table returns it. */
  datatype Duaa = Duaa(id: Id, personId: Id, text: string, isDone: bool, createdAt: string)

  /** A row of the remote `people` table together with its nested duaas. */
  datatype Person = Person(id: Id, name: string, duaas: seq<Duaa>)

  /** The ids of the people, in snapshot order. */
  function PersonIds(people: seq<Person>): seq<Id>
  {
    seq(|people|, i requires 0 <= i < |people| => people[i].id)
  }

  /** An id occurs among the snapshot's ids exactly when some person carries it. */
  lemma IdInPersonIds(people: seq<Person>, id: Id)
    ensures id in PersonIds(people) <==> exists i :: 0 <= i < |people| && people[i].id == id
  {
    if id in PersonIds(people) {
      var i :| 0 <= i < |people| && PersonIds(people)[i] == id;
    }
    if exists i :: 0 <= i < |people| && people[i].id == id {
      var i :| 0 <= i < |people| && people[i].id == id;
      assert PersonIds(people)[i] == id;
    }
  }

  /** The ids of a duaa list, in list order. */
  function DuaaIds(duaas: seq<Duaa>): seq<Id>
  {
    seq(|duaas|, j requires 0 <= j < |duaas| => duaas[j].id)
  }

  /** Number of duaas held by all people of the snapshot. */
  function TotalDuaas(people: seq<Person>): nat
  {
    if people == [] then 0 else |people[0].duaas| + TotalDuaas(people[1..])
  }

  /** No two people of the snapshot share an id. */
  ghost predicate UniqueIds(people: seq<Person>)
  {
    forall i, j :: 0 <= i < j < |people| ==> people[i].id != people[j].id
  }

  /** Every duaa nested under a person refers back to that person. */
  ghost predicate Owned(people: seq<Person>)
  {
    forall i, j :: 0 <= i < |people| && 0 <= j < |people[i].duaas| ==>
      people[i].duaas[j].personId == people[i].id
  }

  /** The snapshot mirrors the remote schema: unique person keys and correct foreign keys. */
  ghost predicate Consistent(people: seq<Person>)
  {
    UniqueIds(people) && Owned(people)
  }
}
