/**
 * The derived `filteredPeople` view: the people whose name, or the text of
 * one of whose duaas, contains the search query, compared case-insensitively.
 * Lower-casing is modelled on ASCII letters only.
 */
module Search {
  import opened Seqs
  import opened Records

  /** `toLowerCase` on one character, ASCII letters only. */
  function LowerChar(c: char): (r: char)
    ensures !('A' <= r <= 'Z')
    ensures 'A' <= c <= 'Z' ==> 'a' <= r <= 'z' && r as int - c as int == 'a' as int - 'A' as int
    ensures !('A' <= c <= 'Z') ==> r == c
  {
    if 'A' <= c <= 'Z' then (c as int - 'A' as int + 'a' as int) as char else c
  }

  /** `toLowerCase` on a string, character by character. */
  function Lower(s: string): (r: string)
    ensures |r| == |s|
    ensures forall i | 0 <= i < |r| :: !('A' <= r[i] <= 'Z')
    ensures forall i | 0 <= i < |s| && !('A' <= s[i] <= 'Z') :: r[i] == s[i]
    ensures forall i | 0 <= i < |s| && 'A' <= s[i] <= 'Z' :: r[i] as int == s[i] as int + ('a' as int - 'A' as int)
  {
    seq(|s|, i requires 0 <= i < |s| => LowerChar(s[i]))
  }

  /** `needle` occurs in `hay` starting at position `i`. */
  ghost predicate OccursAt(hay: string, needle: string, i: int)
  {
    0 <= i && i + |needle| <= |hay| && hay[i..i + |needle|] == needle
  }

  /** `String.prototype.includes`: try every start position from the left. */
  function Contains(hay: string, needle: string): (b: bool)
    ensures needle == [] ==> b
    ensures b ==> |needle| <= |hay|
    decreases |hay|
  {
    (|needle| <= |hay| && hay[..|needle|] == needle) || (hay != [] && Contains(hay[1..], needle))
  }

  /** A person passes the search when the lowered query occurs in the lowered name or in a lowered duaa text. */
  predicate MatchesQuery(p: Person, query: string): (b: bool)
    ensures query == "" ==> b
    ensures Contains(Lower(p.name), Lower(query)) ==> b
    ensures (exists d | d in p.duaas :: Contains(Lower(d.text), Lower(query))) ==> b
  {
    var q := Lower(query);
    Contains(Lower(p.name), q) || exists d | d in p.duaas :: Contains(Lower(d.text), q)
  }

  /** `filteredPeople`: the whole snapshot for an empty (falsy) query, otherwise the matching people in order. */
  function FilteredPeople(people: seq<Person>, query: string): (r: seq<Person>)
    ensures IsSubsequence(r, people)
    ensures forall p | p in r :: p in people && MatchesQuery(p, query)
    ensures forall p | p in people && MatchesQuery(p, query) :: p in r
    ensures forall p | p in people :: multiset(r)[p] == if MatchesQuery(p, query) then multiset(people)[p] else 0
    ensures query == "" ==> r == people
  {
    if query == "" then
      assert forall p: Person :: MatchesQuery(p, "") by {
        forall p: Person ensures MatchesQuery(p, "") {
          assert Lower("") == "";
          assert Lower(p.name)[..0] == "";
        }
      }
      SubsequenceReflexive(people);
      people
    else
      FilterKeepsMultiplicity(people, (p: Person) => MatchesQuery(p, query));
      Filter(people, (p: Person) => MatchesQuery(p, query))
  }

  /** Skipping the filter for an empty query is only a shortcut: filtering by it would keep everyone anyway. */
  lemma EmptyQueryShortcut(people: seq<Person>, query: string)
    ensures FilteredPeople(people, query) == Filter(people, (p: Person) => MatchesQuery(p, query))
  {
  }

  /** Dropping the first character moves every occurrence one position to the left. */
  lemma OccursShift(hay: string, needle: string, i: int)
    requires hay != [] && i >= 0
    ensures OccursAt(hay[1..], needle, i) <==> OccursAt(hay, needle, i + 1)
  {
    if 0 <= i && i + 1 + |needle| <= |hay| {
      assert hay[1..][i..i + |needle|] == hay[i + 1..i + 1 + |needle|];
    }
  }

  /** Substring search finds exactly the positions where the needle occurs. */
  lemma {:induction false} ContainsIffOccurs(hay: string, needle: string)
    ensures Contains(hay, needle) <==> exists i :: OccursAt(hay, needle, i)
    decreases |hay|
  {
    if hay == [] {
      if needle == [] {
        assert OccursAt(hay, needle, 0);
      }
    } else {
      ContainsIffOccurs(hay[1..], needle);
      if Contains(hay, needle) {
        if |needle| <= |hay| && hay[..|needle|] == needle {
          assert OccursAt(hay, needle, 0);
        } else {
          var i :| OccursAt(hay[1..], needle, i);
          OccursShift(hay, needle, i);
          assert OccursAt(hay, needle, i + 1);
        }
      } else {
        forall i ensures !OccursAt(hay, needle, i) {
          if i > 0 {
            OccursShift(hay, needle, i - 1);
          }
        }
      }
    }
  }

  /** Lower-casing twice changes nothing more. */
  lemma LowerIdempotent(s: string)
    ensures Lower(Lower(s)) == Lower(s)
  {
  }

  /** The comparison ignores the query's case: searching for its lowered form selects the same people. */
  lemma QueryCaseIrrelevant(people: seq<Person>, query: string)
    ensures FilteredPeople(people, Lower(query)) == FilteredPeople(people, query)
  {
    LowerIdempotent(query);
    if query != "" {
      assert Lower(query) != "";
      FilterCongruent(people, (p: Person) => MatchesQuery(p, Lower(query)), (p: Person) => MatchesQuery(p, query));
    }
  }

  /** Two sample people: Omar prays for health, Sara for an exam. */
  const Omar := Person("1", "Omar", [Duaa("10", "1", "health", false, "t")])
  const Sara := Person("2", "Sara", [Duaa("20", "2", "exam", false, "t")])

  /** "heal" occurs in Omar's duaa text. */
  lemma OmarMatchesHeal()
    ensures MatchesQuery(Omar, "heal")
  {
    assert Lower("heal") == "heal";
    assert Lower("health") == "health";
    assert Contains("health", "heal");
  }

  /** A four-letter text that does not start with 'h' does not contain "heal". */
  lemma FourLettersMissHeal(text: string)
    requires |text| == 4 && text[0] != 'h'
    ensures !Contains(text, "heal")
  {
    ContainsIffOccurs(text, "heal");
    assert forall i :: !OccursAt(text, "heal", i);
  }

  /** "heal" occurs neither in Sara's name nor in her duaa. */
  lemma SaraMissesHeal()
    ensures !MatchesQuery(Sara, "heal")
  {
    assert Lower("heal") == "heal";
    assert Lower("Sara") == "sara";
    assert Lower("exam") == "exam";
    FourLettersMissHeal("sara");
    FourLettersMissHeal("exam");
    assert forall d | d in Sara.duaas :: d.text == "exam";
  }

  /** Searching "heal" over Omar and Sara keeps only Omar; the empty query keeps both, in order. */
  lemma FilterExample()
    ensures FilteredPeople([Omar, Sara], "heal") == [Omar]
    ensures FilteredPeople([Omar, Sara], "") == [Omar, Sara]
  {
    OmarMatchesHeal();
    SaraMissesHeal();
    var r := FilteredPeople([Omar, Sara], "heal");
    assert Omar in r && Sara !in r;
  }
}
