/** People and who counts as whose friend.  Two people are friends when
    their names differ and their free-text group wishes are similar, that
    is when the foreign Levenshtein ratio of the two texts exceeds 87. */
module Affinity {
  import opened Text

  /** A frozen, ordered dataclass: equality and hashing compare the name
      and the group; ordering compares the name first, then the group. */
  datatype Person = Person(name: string, group: string)

  /** `(p1.name, p1.group) < (p2.name, p2.group)` */
  predicate PersonLess(p1: Person, p2: Person)
    ensures PersonLess(p1, p2) ==> p1 != p2
    ensures p1.name != p2.name ==> (PersonLess(p1, p2) <==> StrLess(p1.name, p2.name))
  {
    StrLess(p1.name, p2.name) || (p1.name == p2.name && StrLess(p1.group, p2.group))
  }

  lemma PersonLessIrreflexive(p: Person)
    ensures !PersonLess(p, p)
  {
    StrLessIrreflexive(p.name);
    StrLessIrreflexive(p.group);
  }

  lemma PersonLessTransitive(p1: Person, p2: Person, p3: Person)
    requires PersonLess(p1, p2) && PersonLess(p2, p3)
    ensures PersonLess(p1, p3)
  {
    if StrLess(p1.name, p2.name) && StrLess(p2.name, p3.name) {
      StrLessTransitive(p1.name, p2.name, p3.name);
    } else if StrLess(p1.group, p2.group) && StrLess(p2.group, p3.group) {
      StrLessTransitive(p1.group, p2.group, p3.group);
    }
  }

  /** Persons that differ in name or group are ordered one way or the other. */
  lemma PersonLessTotal(p1: Person, p2: Person)
    requires p1 != p2
    ensures PersonLess(p1, p2) || PersonLess(p2, p1)
  {
    if p1.name != p2.name { StrLessTotal(p1.name, p2.name); }
    else { StrLessTotal(p1.group, p2.group); }
  }

  /** The foreign `fuzz.ratio`: a similarity score of two texts. */
  type Ratio = (string, string) -> int

  const SimilarityThreshold: int := 87

  /** `_is_similar` */
  predicate IsSimilar(ratio: Ratio, group1: string, group2: string)
    ensures IsSimilar(ratio, group1, group2) <==> ratio(group1, group2) >= 88
  {
    ratio(group1, group2) > SimilarityThreshold
  }

  /** The test that decides whether `candidate` lands in `person`'s list. */
  predicate IsFriend(ratio: Ratio, person: Person, candidate: Person)
    ensures IsFriend(ratio, person, candidate) ==> person != candidate
    ensures IsFriend(ratio, person, candidate) ==> IsSimilar(ratio, person.group, candidate.group)
  {
    person.name != candidate.name && IsSimilar(ratio, person.group, candidate.group)
  }

  /** `_common_friends(person, people)`, as the filter the loop computes. */
  function CommonFriends(ratio: Ratio, person: Person, people: seq<Person>): (friends: seq<Person>)
    ensures |friends| <= |people|
    ensures forall f :: f in friends ==>
              f in people && f.name != person.name && IsSimilar(ratio, person.group, f.group)
  {
    if people == [] then []
    else (if IsFriend(ratio, person, people[0]) then [people[0]] else [])
         + CommonFriends(ratio, person, people[1..])
  }

  /** The filter keeps the order of the list: the friends found in a
      concatenation are those of the first part followed by those of the second. */
  lemma {:induction false} CommonFriendsAppend(ratio: Ratio, person: Person, xs: seq<Person>, ys: seq<Person>)
    ensures CommonFriends(ratio, person, xs + ys)
         == CommonFriends(ratio, person, xs) + CommonFriends(ratio, person, ys)
  {
    if xs == [] {
      assert xs + ys == ys;
    } else {
      assert (xs + ys)[1..] == xs[1..] + ys;
      CommonFriendsAppend(ratio, person, xs[1..], ys);
    }
  }

  /** Nobody who passes the test is missed, however many times listed:
      each person occurs in the result exactly as often as in `people`
      when they pass the test, and not at all otherwise. */
  lemma {:induction false} CommonFriendsCount(ratio: Ratio, person: Person, people: seq<Person>, q: Person)
    ensures multiset(CommonFriends(ratio, person, people))[q]
         == if IsFriend(ratio, person, q) then multiset(people)[q] else 0
  {
    if people != [] {
      CommonFriendsCount(ratio, person, people[1..], q);
      assert people == [people[0]] + people[1..];
    }
  }

  /** Every member of `people` that passes the test is in the list. */
  lemma CommonFriendsComplete(ratio: Ratio, person: Person, people: seq<Person>, q: Person)
    requires q in people && IsFriend(ratio, person, q)
    ensures q in CommonFriends(ratio, person, people)
  {
    CommonFriendsCount(ratio, person, people, q);
  }

  /** The friendship relation is symmetric whenever the ratio is symmetric
      on the two group texts; the code itself does not make it so. */
  lemma FriendshipSymmetric(ratio: Ratio, people: seq<Person>, p: Person, q: Person)
    requires p in people && q in people
    requires ratio(p.group, q.group) == ratio(q.group, p.group)
    ensures q in CommonFriends(ratio, p, people) <==> p in CommonFriends(ratio, q, people)
  {
    if q in CommonFriends(ratio, p, people) {
      CommonFriendsComplete(ratio, q, people, p);
    }
    if p in CommonFriends(ratio, q, people) {
      CommonFriendsComplete(ratio, p, people, q);
    }
  }

  /** `_common_friends`: the loop that appends every other person whose
      group is similar. */
  method CollectCommonFriends(ratio: Ratio, person: Person, people: seq<Person>)
    returns (friends: seq<Person>)
    ensures friends == CommonFriends(ratio, person, people)
  {
    friends := [];
    for k := 0 to |people|
      invariant friends == CommonFriends(ratio, person, people[..k])
    {
      var p := people[k];
      CommonFriendsAppend(ratio, person, people[..k], [p]);
      assert people[..k + 1] == people[..k] + [p];
      if person.name != p.name && IsSimilar(ratio, person.group, p.group) {
        friends := friends + [p];
      }
    }
    assert people[..|people|] == people;
  }
}
