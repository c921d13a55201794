/** The global candidate order: every distinct person, ascending by the
    length of their friend list, ties broken by the ordering of `Person`
    (name, then group), as `sorted(zip(cluster_sizes, friends_map.keys()))`
    orders its pairs. */
module Clustering {
  import opened Sequences
  import opened Affinity

  type Entry = (nat, Person)

  /** Tuple `<` on `(count, person)` pairs. */
  predicate EntryLess(x: Entry, y: Entry)
  {
    x.0 < y.0 || (x.0 == y.0 && PersonLess(x.1, y.1))
  }

  lemma EntryLessIrreflexive(x: Entry)
    ensures !EntryLess(x, x)
  {
    PersonLessIrreflexive(x.1);
  }

  lemma EntryLessTransitive(x: Entry, y: Entry, z: Entry)
    requires EntryLess(x, y) && EntryLess(y, z)
    ensures EntryLess(x, z)
  {
    if x.0 == y.0 == z.0 { PersonLessTransitive(x.1, y.1, z.1); }
  }

  lemma EntryLessTotal(x: Entry, y: Entry)
    requires x != y
    ensures EntryLess(x, y) || EntryLess(y, x)
  {
    if x.0 == y.0 { PersonLessTotal(x.1, y.1); }
  }

  predicate StrictlySorted(s: seq<Entry>)
  {
    forall i, j :: 0 <= i < j < |s| ==> EntryLess(s[i], s[j])
  }

  function InsertEntry(x: Entry, s: seq<Entry>): (r: seq<Entry>)
    ensures multiset(r) == multiset(s) + multiset{x}
  {
    if s == [] then [x]
    else if EntryLess(x, s[0]) then [x] + s
    else
      assert s == [s[0]] + s[1..];
      [s[0]] + InsertEntry(x, s[1..])
  }

  /** `sorted(pairs)` */
  function SortEntries(s: seq<Entry>): (r: seq<Entry>)
    ensures multiset(r) == multiset(s)
  {
    if s == [] then []
    else
      assert s == [s[0]] + s[1..];
      InsertEntry(s[0], SortEntries(s[1..]))
  }

  lemma {:induction false} InsertEntrySorted(x: Entry, s: seq<Entry>)
    requires StrictlySorted(s) && x !in s
    ensures StrictlySorted(InsertEntry(x, s))
  {
    if s == [] {
    } else if EntryLess(x, s[0]) {
      forall j | 0 < j < |s| ensures EntryLess(x, s[j]) {
        EntryLessTransitive(x, s[0], s[j]);
      }
    } else {
      EntryLessTotal(x, s[0]);
      assert s == [s[0]] + s[1..];
      InsertEntrySorted(x, s[1..]);
      var r := InsertEntry(x, s[1..]);
      forall j | 0 <= j < |r| ensures EntryLess(s[0], r[j]) {
        assert r[j] in multiset(r);
        if r[j] != x {
          assert r[j] in s[1..];
        }
      }
    }
  }

  /** Sorting distinct pairs leaves them strictly ascending. */
  lemma {:induction false} SortEntriesSorted(s: seq<Entry>)
    requires NoDuplicates(s)
    ensures StrictlySorted(SortEntries(s))
  {
    if s != [] {
      SortEntriesSorted(s[1..]);
      var t := SortEntries(s[1..]);
      assert s[0] !in multiset(s[1..]) by {
        forall k | 0 <= k < |s[1..]| ensures s[1..][k] != s[0] {
          assert s[1..][k] == s[k + 1];
        }
      }
      InsertEntrySorted(s[0], t);
    }
  }

  /** The length of `person`'s friend list: `len(friends_map[person])`. */
  function ClusterSize(ratio: Ratio, people: seq<Person>, person: Person): nat
  {
    |CommonFriends(ratio, person, people)|
  }

  /** `zip(cluster_sizes, friends_map.keys())` */
  function ClusterEntries(ratio: Ratio, people: seq<Person>): (r: seq<Entry>)
    ensures |r| == |Distinct(people)|
    ensures forall k :: 0 <= k < |r| ==> r[k] == (ClusterSize(ratio, people, Distinct(people)[k]), Distinct(people)[k])
  {
    var keys := Distinct(people);
    seq(|keys|, k requires 0 <= k < |keys| => (ClusterSize(ratio, people, keys[k]), keys[k]))
  }

  /** `people_clustered`: the people of the sorted pairs. */
  function ClusterOrder(ratio: Ratio, people: seq<Person>): (order: seq<Person>)
    ensures |order| == |Distinct(people)|
  {
    var sorted := SortEntries(ClusterEntries(ratio, people));
    assert |sorted| == |multiset(sorted)| == |ClusterEntries(ratio, people)|;
    seq(|sorted|, k requires 0 <= k < |sorted| => sorted[k].1)
  }

  lemma SortedClusterEntries(ratio: Ratio, people: seq<Person>)
    ensures StrictlySorted(SortEntries(ClusterEntries(ratio, people)))
    ensures forall k :: 0 <= k < |SortEntries(ClusterEntries(ratio, people))| ==>
              var e := SortEntries(ClusterEntries(ratio, people))[k];
              e.0 == ClusterSize(ratio, people, e.1) && e.1 in people
  {
    var entries := ClusterEntries(ratio, people);
    var keys := Distinct(people);
    var sorted := SortEntries(entries);
    assert NoDuplicates(entries) by {
      forall i, j | 0 <= i < j < |entries| ensures entries[i] != entries[j] {
        assert entries[i].1 == keys[i] && entries[j].1 == keys[j];
      }
    }
    SortEntriesSorted(entries);
    forall k | 0 <= k < |sorted|
      ensures sorted[k].0 == ClusterSize(ratio, people, sorted[k].1) && sorted[k].1 in people
    {
      assert sorted[k] in multiset(entries);
      var m :| 0 <= m < |entries| && entries[m] == sorted[k];
    }
  }

  lemma ClusterOrderComplete(ratio: Ratio, people: seq<Person>, p: Person)
    requires p in people
    ensures p in ClusterOrder(ratio, people)
  {
    var entries := ClusterEntries(ratio, people);
    var keys := Distinct(people);
    var sorted := SortEntries(entries);
    var m :| 0 <= m < |keys| && keys[m] == p;
    assert entries[m] in multiset(sorted);
    var k :| 0 <= k < |sorted| && sorted[k] == entries[m];
    assert ClusterOrder(ratio, people)[k] == p;
  }

  /** The candidate order lists every distinct person exactly once,
      ascending by friend count and, on equal counts, by name then group. */
  lemma ClusterOrderSpec(ratio: Ratio, people: seq<Person>)
    ensures NoDuplicates(ClusterOrder(ratio, people))
    ensures forall p :: p in ClusterOrder(ratio, people) <==> p in people
    ensures forall i, j :: 0 <= i < j < |ClusterOrder(ratio, people)| ==>
              var a, b := ClusterOrder(ratio, people)[i], ClusterOrder(ratio, people)[j];
              ClusterSize(ratio, people, a) < ClusterSize(ratio, people, b) ||
              (ClusterSize(ratio, people, a) == ClusterSize(ratio, people, b) && PersonLess(a, b))
  {
    var sorted := SortEntries(ClusterEntries(ratio, people));
    var r := ClusterOrder(ratio, people);
    SortedClusterEntries(ratio, people);
    forall i, j | 0 <= i < j < |r| ensures r[i] != r[j] {
      assert EntryLess(sorted[i], sorted[j]);
    }
    forall p | p in people ensures p in r {
      ClusterOrderComplete(ratio, people, p);
    }
    forall i, j | 0 <= i < j < |r|
      ensures EntryLess((ClusterSize(ratio, people, r[i]), r[i]), (ClusterSize(ratio, people, r[j]), r[j]))
    {
      assert sorted[i] == (ClusterSize(ratio, people, r[i]), r[i]);
      assert sorted[j] == (ClusterSize(ratio, people, r[j]), r[j]);
    }
  }
}
