/**
 * The person page: find the person named by the route among the people the
 * store exposes (the filtered view), then summarise their duaas.
 */
module PersonDetail {
  import opened Seqs
  import opened Records
  import opened Search

  datatype Option<T> = None | Some(value: T)

  /** Position `i` holds the first person carrying `id`. */
  ghost predicate FirstMatchAt(people: seq<Person>, id: Id, i: int)
  {
    0 <= i < |people| && people[i].id == id && forall k | 0 <= k < i :: people[k].id != id
  }

  /** A first match in the tail is a first match of the whole list when the head does not match. */
  lemma FirstMatchShift(people: seq<Person>, id: Id)
    requires people != [] && people[0].id != id
    ensures forall i :: FirstMatchAt(people[1..], id, i) ==> FirstMatchAt(people, id, i + 1)
  {
  }

  /** `people.find(p => p.id === id)`: the first person carrying the id, if any. */
  function FindPerson(people: seq<Person>, id: Id): (r: Option<Person>)
    ensures r.None? <==> forall i | 0 <= i < |people| :: people[i].id != id
    ensures r.Some? ==> exists i :: FirstMatchAt(people, id, i) && people[i] == r.value
  {
    if people == [] then None
    else if people[0].id == id then
      assert FirstMatchAt(people, id, 0);
      Some(people[0])
    else
      FirstMatchShift(people, id);
      assert forall i | 0 < i < |people| :: people[i] == people[1..][i - 1];
      FindPerson(people[1..], id)
  }

  predicate IsDone(d: Duaa) { d.isDone }
  predicate IsOpen(d: Duaa) { !d.isDone }

  /** How many of the duaas are done, counted one by one. */
  function CountDone(duaas: seq<Duaa>): nat
  {
    if duaas == [] then 0 else (if duaas[0].isDone then 1 else 0) + CountDone(duaas[1..])
  }

  /** Filtering the done duaas keeps exactly as many as are done. */
  lemma {:induction false} FilterDoneCounts(duaas: seq<Duaa>)
    ensures |Filter(duaas, IsDone)| == CountDone(duaas)
  {
    if duaas != [] {
      FilterDoneCounts(duaas[1..]);
    }
  }

  /** The counts shown on the page: total, completed, remaining, and the completion badge. */
  datatype Summary = Summary(total: nat, completed: nat, remaining: int, isComplete: bool)

  /**
   * `totalDuaas`, `completedDuaas` (`duaas.filter(d => d.is_done).length`),
   * the remaining count `totalDuaas - completedDuaas` and `isComplete`.
   */
  function Summarize(duaas: seq<Duaa>): (s: Summary)
    ensures s.total == |duaas|
    ensures s.completed == CountDone(duaas)
    ensures 0 <= s.completed <= s.total
    ensures s.completed == 0 <==> forall d | d in duaas :: !d.isDone
    ensures s.remaining >= 0 && s.completed + s.remaining == s.total
    ensures s.isComplete <==> duaas != [] && forall d | d in duaas :: d.isDone
  {
    var done := Filter(duaas, IsDone);
    FilterDoneCounts(duaas);
    assert |done| == 0 <==> forall d | d in duaas :: !d.isDone by {
      if |done| != 0 { assert done[0] in done; }
    }
    var total := |duaas|;
    var completed := |done|;
    Summary(total, completed, total - completed, total > 0 && completed == total)
  }

  /** The remaining count is the number of duaas still open. */
  lemma {:induction false} RemainingCountsOpen(duaas: seq<Duaa>)
    ensures Summarize(duaas).remaining == |Filter(duaas, IsOpen)|
  {
    if duaas != [] {
      RemainingCountsOpen(duaas[1..]);
    }
  }

  /** What the page shows. */
  datatype Screen = Loading | NotFound | Detail(person: Person, summary: Summary)

  /** The page's branches: spinner while loading, "Person Not Found" without a match, else the details. */
  function Render(view: seq<Person>, loading: bool, routeId: Id): (s: Screen)
    ensures loading <==> s.Loading?
    ensures s.NotFound? <==> !loading && forall i | 0 <= i < |view| :: view[i].id != routeId
    ensures s.Detail? ==> (exists i :: FirstMatchAt(view, routeId, i) && view[i] == s.person) && s.summary == Summarize(s.person.duaas)
  {
    var person := FindPerson(view, routeId);
    if loading then Loading
    else if person.None? then NotFound
    else Detail(person.value, Summarize(person.value.duaas))
  }

  /**
   * The lookup runs on the filtered view: while a search query hides a
   * person, that person's page reports "Person Not Found".
   */
  lemma HiddenPersonNotFound(people: seq<Person>, query: string, routeId: Id)
    requires forall p | p in people && p.id == routeId :: !MatchesQuery(p, query)
    ensures Render(FilteredPeople(people, query), false, routeId).NotFound?
  {
  }
}
