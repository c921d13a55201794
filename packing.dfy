/** Filling one table: a last-in-first-out stack starts with the table's
    chunk (its first member on top); each popped person not yet seated at
    this table takes the next seat and has their friends pushed, so that
    friends are seated depth-first before the rest of the chunk. */
module Packing {
  import opened Sequences
  import opened Affinity

  /** The dictionary of friend lists the loop pushes from. */
  type Friends = map<Person, seq<Person>>

  /** Every friend listed is a key of the dictionary too. */
  predicate Closed(friends: Friends)
  {
    forall p, q :: p in friends && q in friends[p] ==> q in friends
  }

  /** `friends_map`: each person's friend list. */
  function FriendsMap(ratio: Ratio, people: seq<Person>): (m: Friends)
    ensures forall p :: p in m <==> p in people
    ensures forall p :: p in m ==> m[p] == CommonFriends(ratio, p, people)
    ensures Closed(m)
  {
    map p | p in people :: CommonFriends(ratio, p, people)
  }

  /** `friends_map[p]`; a person outside the dictionary would raise
      `KeyError`, which cannot happen here since every stack starts from
      members of the list the dictionary is keyed by. */
  function Pushed(friends: Friends, p: Person): (r: seq<Person>)
    ensures p in friends ==> r == friends[p]
    ensures Closed(friends) ==> forall q :: q in r ==> q in friends
  {
    if p in friends then friends[p] else []
  }

  /** The people the loop seats, in seat order, when it starts from `stack`
      (top at the end) with `processed` already seated at this table. */
  function Drain(friends: Friends, stack: seq<Person>, processed: set<Person>): (seated: seq<Person>)
    requires Closed(friends)
    ensures forall q :: q in seated ==> q !in processed && (q in stack || q in friends)
    decreases friends.Keys + Elements(stack) - processed, |stack|
  {
    if stack == [] then []
    else
      var p, rest := stack[|stack| - 1], stack[..|stack| - 1];
      assert Elements(stack) == Elements(rest) + {p};
      if p in processed then Drain(friends, rest, processed)
      else
        assert Elements(rest + Pushed(friends, p)) <= Elements(rest) + friends.Keys;
        [p] + Drain(friends, rest + Pushed(friends, p), processed + {p})
  }

  /** The seat order of a table whose stack starts as `chunk` reversed,
      its first member on top. */
  function StackOrder(friends: Friends, chunk: seq<Person>): (order: seq<Person>)
    requires Closed(friends)
    requires forall q :: q in chunk ==> q in friends
    ensures forall q :: q in order ==> q in friends
  {
    DrainSeatsNewPeople(friends, Reverse(chunk), {});
    Drain(friends, Reverse(chunk), {})
  }

  /** The seat order of a table whose chunk is `chunk`: only people from
      the list (and nobody twice, `SeatingOrderDistinct`). */
  function SeatingOrder(ratio: Ratio, people: seq<Person>, chunk: seq<Person>): (order: seq<Person>)
    requires forall q :: q in chunk ==> q in people
    ensures forall q :: q in order ==> q in people
  {
    StackOrder(FriendsMap(ratio, people), chunk)
  }

  /** One pop of the loop, stated on its own so proofs can use it cheaply. */
  lemma DrainPop(friends: Friends, stack: seq<Person>, processed: set<Person>)
    requires Closed(friends) && stack != []
    ensures var p, rest := stack[|stack| - 1], stack[..|stack| - 1];
            Drain(friends, stack, processed)
              == if p in processed then Drain(friends, rest, processed)
                 else [p] + Drain(friends, rest + Pushed(friends, p), processed + {p})
  {
  }

  /** Nobody is seated twice at one table, nor anyone seated before, and
      everyone seated is a key of the dictionary. */
  lemma {:induction false} DrainSeatsNewPeople(friends: Friends, stack: seq<Person>, processed: set<Person>)
    requires Closed(friends)
    requires forall q :: q in stack ==> q in friends
    ensures NoDuplicates(Drain(friends, stack, processed))
    ensures forall q :: q in Drain(friends, stack, processed) ==> q in friends && q !in processed
    decreases friends.Keys + Elements(stack) - processed, |stack|
  {
    if stack != [] {
      var p, rest := stack[|stack| - 1], stack[..|stack| - 1];
      assert Elements(stack) == Elements(rest) + {p};
      if p in processed {
        DrainSeatsNewPeople(friends, rest, processed);
      } else {
        assert Elements(rest + Pushed(friends, p)) <= Elements(rest) + friends.Keys;
        DrainSeatsNewPeople(friends, rest + Pushed(friends, p), processed + {p});
      }
    }
  }

  /** Everyone on the stack is seated, unless already seated before. */
  lemma {:induction false} DrainComplete(friends: Friends, stack: seq<Person>, processed: set<Person>)
    requires Closed(friends)
    ensures forall k :: 0 <= k < |stack| ==>
              stack[k] in processed || stack[k] in Drain(friends, stack, processed)
    decreases friends.Keys + Elements(stack) - processed, |stack|
  {
    if stack != [] {
      var p, rest := stack[|stack| - 1], stack[..|stack| - 1];
      assert Elements(stack) == Elements(rest) + {p};
      if p in processed {
        DrainComplete(friends, rest, processed);
      } else {
        var next := rest + Pushed(friends, p);
        assert Elements(next) <= Elements(rest) + friends.Keys;
        DrainComplete(friends, next, processed + {p});
        forall k | 0 <= k < |stack| - 1
          ensures stack[k] in processed || stack[k] in Drain(friends, stack, processed)
        {
          assert next[k] == stack[k];
        }
      }
    }
  }

  /** Depth first: whatever sits on top of the stack (`upper`) is seated,
      with everything it pulls in, before anything beneath it (`lower`). */
  lemma {:induction false} DrainDepthFirst(friends: Friends, lower: seq<Person>, upper: seq<Person>, processed: set<Person>)
    requires Closed(friends)
    ensures Drain(friends, lower + upper, processed)
         == Drain(friends, upper, processed) +
            Drain(friends, lower, processed + Elements(Drain(friends, upper, processed)))
    decreases friends.Keys + Elements(upper) - processed, |upper|
  {
    if upper == [] {
      assert lower + upper == lower;
      assert Elements(Drain(friends, upper, processed)) == {};
      assert processed + {} == processed;
    } else {
      var p, rest := upper[|upper| - 1], upper[..|upper| - 1];
      assert Elements(upper) == Elements(rest) + {p};
      if p in processed {
        DrainDepthFirst(friends, lower, rest, processed);
        DepthFirstSkip(friends, lower, upper, processed);
      } else {
        assert Elements(rest + Pushed(friends, p)) <= Elements(rest) + friends.Keys;
        DrainDepthFirst(friends, lower, rest + Pushed(friends, p), processed + {p});
        DepthFirstSeat(friends, lower, upper, processed);
      }
    }
  }

  /** The step of `DrainDepthFirst` where the top of `upper` was seated before. */
  lemma DepthFirstSkip(friends: Friends, lower: seq<Person>, upper: seq<Person>, processed: set<Person>)
    requires Closed(friends)
    requires upper != [] && upper[|upper| - 1] in processed
    requires var rest := upper[..|upper| - 1];
             Drain(friends, lower + rest, processed)
               == Drain(friends, rest, processed) +
                  Drain(friends, lower, processed + Elements(Drain(friends, rest, processed)))
    ensures Drain(friends, lower + upper, processed)
         == Drain(friends, upper, processed) +
            Drain(friends, lower, processed + Elements(Drain(friends, upper, processed)))
  {
    var stack := lower + upper;
    var rest := upper[..|upper| - 1];
    assert Drain(friends, stack, processed) == Drain(friends, lower + rest, processed) by {
      assert stack[|stack| - 1] == upper[|upper| - 1] && stack[..|stack| - 1] == lower + rest;
      DrainPop(friends, stack, processed);
    }
    assert Drain(friends, upper, processed) == Drain(friends, rest, processed) by {
      DrainPop(friends, upper, processed);
    }
  }

  /** The step of `DrainDepthFirst` where the top of `upper` takes a seat. */
  lemma DepthFirstSeat(friends: Friends, lower: seq<Person>, upper: seq<Person>, processed: set<Person>)
    requires Closed(friends)
    requires upper != [] && upper[|upper| - 1] !in processed
    requires var p, rest := upper[|upper| - 1], upper[..|upper| - 1];
             var next, p' := rest + Pushed(friends, p), processed + {p};
             Drain(friends, lower + next, p')
               == Drain(friends, next, p') +
                  Drain(friends, lower, p' + Elements(Drain(friends, next, p')))
    ensures Drain(friends, lower + upper, processed)
         == Drain(friends, upper, processed) +
            Drain(friends, lower, processed + Elements(Drain(friends, upper, processed)))
  {
    var stack := lower + upper;
    var p, rest := upper[|upper| - 1], upper[..|upper| - 1];
    var next, p' := rest + Pushed(friends, p), processed + {p};
    var inner := Drain(friends, next, p');
    PopUpper(friends, lower, upper, processed);
    assert Drain(friends, upper, processed) == [p] + inner by {
      DrainPop(friends, upper, processed);
    }
    assert p' + Elements(inner) == processed + Elements([p] + inner) by {
      SetOfCons(p, inner);
    }
    var tail := Drain(friends, lower, p' + Elements(inner));
    Assemble(p, inner, tail, Drain(friends, stack, processed), Drain(friends, upper, processed));
  }

  /** Popping a stack whose top part is `upper` pushes onto `upper`'s rest. */
  lemma PopUpper(friends: Friends, lower: seq<Person>, upper: seq<Person>, processed: set<Person>)
    requires Closed(friends)
    requires upper != [] && upper[|upper| - 1] !in processed
    ensures var p, rest := upper[|upper| - 1], upper[..|upper| - 1];
            Drain(friends, lower + upper, processed)
              == [p] + Drain(friends, lower + (rest + Pushed(friends, p)), processed + {p})
  {
    var stack := lower + upper;
    var p, rest := upper[|upper| - 1], upper[..|upper| - 1];
    assert stack[|stack| - 1] == p;
    assert stack[..|stack| - 1] == lower + rest;
    assert (lower + rest) + Pushed(friends, p) == lower + (rest + Pushed(friends, p));
    DrainPop(friends, stack, processed);
  }

  lemma Assemble(p: Person, inner: seq<Person>, tail: seq<Person>, whole: seq<Person>, top: seq<Person>)
    requires whole == [p] + (inner + tail) && top == [p] + inner
    ensures whole == top + tail
  {
  }

  lemma SetOfCons(p: Person, s: seq<Person>)
    ensures Elements([p] + s) == {p} + Elements(s)
  {
  }

  /** Nobody is seated without a reason: each seated person was on the
      stack to begin with or is a friend of someone seated before them. */
  lemma {:induction false} DrainProvenance(friends: Friends, stack: seq<Person>, processed: set<Person>, k: nat)
    requires Closed(friends)
    requires k < |Drain(friends, stack, processed)|
    ensures var seated := Drain(friends, stack, processed);
            seated[k] in stack || exists j :: 0 <= j < k && seated[k] in Pushed(friends, seated[j])
    decreases friends.Keys + Elements(stack) - processed, |stack|
  {
    var p, rest := stack[|stack| - 1], stack[..|stack| - 1];
    MeasureShrinks(friends, stack, processed);
    DrainPop(friends, stack, processed);
    if p in processed {
      DrainProvenance(friends, rest, processed, k);
      ProvenanceSkip(friends, stack, Drain(friends, rest, processed), k);
    } else if k > 0 {
      var inner := Drain(friends, rest + Pushed(friends, p), processed + {p});
      DrainProvenance(friends, rest + Pushed(friends, p), processed + {p}, k - 1);
      ProvenanceSeat(friends, stack, inner, k);
    }
  }

  /** `DrainProvenance` after a pop that seats nobody. */
  lemma ProvenanceSkip(friends: Friends, stack: seq<Person>, seated: seq<Person>, k: nat)
    requires stack != [] && k < |seated|
    requires seated[k] in stack[..|stack| - 1] ||
             exists j :: 0 <= j < k && seated[k] in Pushed(friends, seated[j])
    ensures seated[k] in stack || exists j :: 0 <= j < k && seated[k] in Pushed(friends, seated[j])
  {
    assert stack == stack[..|stack| - 1] + [stack[|stack| - 1]];
  }

  /** `DrainProvenance` after a pop that seats the top of the stack. */
  lemma ProvenanceSeat(friends: Friends, stack: seq<Person>, inner: seq<Person>, k: nat)
    requires stack != [] && 0 < k <= |inner|
    requires var p, rest := stack[|stack| - 1], stack[..|stack| - 1];
             inner[k - 1] in rest + Pushed(friends, p) ||
             exists j :: 0 <= j < k - 1 && inner[k - 1] in Pushed(friends, inner[j])
    ensures var seated := [stack[|stack| - 1]] + inner;
            seated[k] in stack || exists j :: 0 <= j < k && seated[k] in Pushed(friends, seated[j])
  {
    var p, rest := stack[|stack| - 1], stack[..|stack| - 1];
    var seated := [p] + inner;
    assert seated[k] == inner[k - 1];
    if inner[k - 1] in rest + Pushed(friends, p) {
      if inner[k - 1] in Pushed(friends, p) {
        assert seated[k] in Pushed(friends, seated[0]);
      } else {
        assert stack == rest + [p];
      }
    } else {
      var j :| 0 <= j < k - 1 && inner[k - 1] in Pushed(friends, inner[j]);
      assert seated[j + 1] == inner[j];
    }
  }

  /** The first person of the chunk takes seat 0; next come the friends
      they pull in, depth first, and only then the rest of the chunk. */
  lemma SeatingOrderStart(ratio: Ratio, people: seq<Person>, chunk: seq<Person>)
    requires forall q :: q in chunk ==> q in people
    requires chunk != []
    ensures var first, friends := chunk[0], CommonFriends(ratio, chunk[0], people);
            var m := FriendsMap(ratio, people);
            var pulled := Drain(m, friends, {first});
            SeatingOrder(ratio, people, chunk)
              == [first] + pulled + Drain(m, Reverse(chunk[1..]), {first} + Elements(pulled))
  {
    var m := FriendsMap(ratio, people);
    var stack, below := Reverse(chunk), Reverse(chunk[1..]);
    assert stack == below + [chunk[0]];
    assert Pushed(m, chunk[0]) == CommonFriends(ratio, chunk[0], people);
    DrainTop(m, below, chunk[0]);
  }

  /** A fresh stack with `first` on top seats `first`, then whoever
      `first` pulls in, then the rest of the stack. */
  lemma DrainTop(friends: Friends, below: seq<Person>, first: Person)
    requires Closed(friends)
    ensures var pulled := Drain(friends, Pushed(friends, first), {first});
            Drain(friends, below + [first], {})
              == [first] + pulled + Drain(friends, below, {first} + Elements(pulled))
  {
    var stack, pushed := below + [first], Pushed(friends, first);
    assert stack[|stack| - 1] == first && stack[..|stack| - 1] == below;
    assert {} + {first} == {first};
    assert Drain(friends, stack, {}) == [first] + Drain(friends, below + pushed, {first}) by {
      DrainPop(friends, stack, {});
    }
    DrainDepthFirst(friends, below, pushed, {first});
  }

  /** In particular the chunk's first member is seated first and, when they
      have friends, their last friend is seated second. */
  lemma SeatingOrderFirstTwo(ratio: Ratio, people: seq<Person>, chunk: seq<Person>)
    requires forall q :: q in chunk ==> q in people
    requires chunk != []
    ensures var friends := CommonFriends(ratio, chunk[0], people);
            var order := SeatingOrder(ratio, people, chunk);
            |order| >= 1 && order[0] == chunk[0] &&
            (friends != [] ==> |order| >= 2 && order[1] == friends[|friends| - 1])
  {
    var m := FriendsMap(ratio, people);
    var first, friends := chunk[0], CommonFriends(ratio, chunk[0], people);
    SeatingOrderStart(ratio, people, chunk);
    if friends != [] {
      var last := friends[|friends| - 1];
      assert last != first;
      assert Drain(m, friends, {first})[0] == last by {
        DrainPop(m, friends, {first});
      }
    }
  }

  /** A table's order is empty exactly when its chunk is. */
  lemma SeatingOrderEmpty(ratio: Ratio, people: seq<Person>, chunk: seq<Person>)
    requires forall q :: q in chunk ==> q in people
    ensures SeatingOrder(ratio, people, chunk) == [] <==> chunk == []
  {
    if chunk != [] { SeatingOrderFirstTwo(ratio, people, chunk); }
  }

  /** Every member of the chunk is seated at the table. */
  lemma SeatingOrderComplete(ratio: Ratio, people: seq<Person>, chunk: seq<Person>, q: Person)
    requires forall q :: q in chunk ==> q in people
    requires q in chunk
    ensures q in SeatingOrder(ratio, people, chunk)
  {
    DrainComplete(FriendsMap(ratio, people), Reverse(chunk), {});
    var k :| 0 <= k < |chunk| && chunk[k] == q;
    assert Reverse(chunk)[|chunk| - 1 - k] == q;
  }

  /** Everyone seated at a table is a member of its chunk or a common
      friend of someone seated before them there. */
  lemma SeatingOrderProvenance(ratio: Ratio, people: seq<Person>, chunk: seq<Person>, k: nat)
    requires forall q :: q in chunk ==> q in people
    requires k < |SeatingOrder(ratio, people, chunk)|
    ensures var order := SeatingOrder(ratio, people, chunk);
            order[k] in chunk ||
            exists j :: 0 <= j < k && order[k] in CommonFriends(ratio, order[j], people)
  {
    var m := FriendsMap(ratio, people);
    var order := SeatingOrder(ratio, people, chunk);
    DrainProvenance(m, Reverse(chunk), {}, k);
    if order[k] !in Reverse(chunk) {
      var j :| 0 <= j < k && order[k] in Pushed(m, order[j]);
      assert Pushed(m, order[j]) == CommonFriends(ratio, order[j], people);
    } else {
      var i :| 0 <= i < |chunk| && Reverse(chunk)[i] == order[k];
      assert chunk[|chunk| - 1 - i] == order[k];
    }
  }

  /** Nobody is seated twice at one table. */
  lemma SeatingOrderDistinct(ratio: Ratio, people: seq<Person>, chunk: seq<Person>)
    requires forall q :: q in chunk ==> q in people
    ensures NoDuplicates(SeatingOrder(ratio, people, chunk))
  {
    DrainSeatsNewPeople(FriendsMap(ratio, people), Reverse(chunk), {});
  }

  /** A table seats no more people than there are distinct people. */
  lemma SeatingOrderBound(ratio: Ratio, people: seq<Person>, chunk: seq<Person>)
    requires forall q :: q in chunk ==> q in people
    ensures |SeatingOrder(ratio, people, chunk)| <= |Elements(people)|
  {
    var order := SeatingOrder(ratio, people, chunk);
    SeatingOrderDistinct(ratio, people, chunk);
    NoDuplicatesCard(order);
    SubsetCard(Elements(order), Elements(people));
  }

  /** The grid holds `cells` row by row: seat `k` is `table[k / 2, k % 2]`. */
  ghost predicate Holds(table: array2<int>, cells: seq<int>)
    reads table
  {
    table.Length1 == 2 && |cells| == 2 * table.Length0 &&
    forall r, c :: 0 <= r < table.Length0 && 0 <= c < 2 ==> table[r, c] == cells[2 * r + c]
  }

  /** The grid holds `cells` from seat 0 on and zeros after them. */
  ghost predicate Filled(table: array2<int>, cells: seq<int>)
    reads table
  {
    table.Length1 == 2 && |cells| <= 2 * table.Length0 &&
    forall r, c :: 0 <= r < table.Length0 && 0 <= c < 2 ==>
      table[r, c] == if 2 * r + c < |cells| then cells[2 * r + c] else 0
  }

  /** The cells of a table seating `order`: their IDs from seat 0 on, then zeros. */
  function Layout(ids: map<Person, nat>, order: seq<Person>, seats: nat): (cells: seq<int>)
    requires forall q :: q in order ==> q in ids
    ensures |cells| == seats
    ensures forall k :: 0 <= k < seats ==> cells[k] == if k < |order| then ids[order[k]] else 0
  {
    seq(seats, k requires 0 <= k < seats => if k < |order| then ids[order[k]] else 0)
  }

  /** What the loop's termination measure does on one pop. */
  lemma MeasureShrinks(friends: Friends, stack: seq<Person>, processed: set<Person>)
    requires Closed(friends) && stack != []
    ensures var p, rest := stack[|stack| - 1], stack[..|stack| - 1];
            var before := friends.Keys + Elements(stack) - processed;
            (p in processed ==> friends.Keys + Elements(rest) - processed == before) &&
            (p !in processed ==>
               friends.Keys + Elements(rest + Pushed(friends, p)) - (processed + {p}) < before)
  {
    var p, rest := stack[|stack| - 1], stack[..|stack| - 1];
    assert stack == rest + [p];
    assert Elements(stack) == Elements(rest) + {p};
    assert Elements(rest + Pushed(friends, p)) <= Elements(rest) + friends.Keys;
  }

  lemma Associate(a: seq<Person>, b: seq<Person>, c: seq<Person>)
    ensures (a + b) + c == a + (b + c)
  {
  }

  /** Seating `person` next keeps `cells` the IDs of `seated`. */
  lemma ExtendCells(seated: seq<Person>, cells: seq<int>, ids: map<Person, nat>, person: Person)
    requires |seated| == |cells| && person in ids
    requires forall k :: 0 <= k < |seated| ==> seated[k] in ids && cells[k] == ids[seated[k]]
    ensures var s, c := seated + [person], cells + [ids[person]];
            forall k :: 0 <= k < |s| ==> s[k] in ids && c[k] == ids[s[k]]
  {
  }

  /** Seat `k` of a two-column grid is cell `(k / 2, k % 2)`. */
  lemma SeatCell(k: nat, r: nat, c: nat)
    requires c < 2
    ensures 2 * r + c == k <==> r == k / 2 && c == k % 2
  {
  }

  /** `for person in reversed(chunk): stack.put(person)`: the chunk's
      first member ends on top of the stack. */
  method PushReversed(chunk: seq<Person>) returns (stack: seq<Person>)
    ensures stack == Reverse(chunk)
    ensures |chunk| > 0 ==> stack[|stack| - 1] == chunk[0]
  {
    stack := [];
    for k := 0 to |chunk|
      invariant stack == Reverse(chunk)[..k]
    {
      stack := stack + [chunk[|chunk| - 1 - k]];
    }
  }

  /** `table[i // 2, i % 2] = id` on a grid whose seats from `i` on are still 0. */
  method Seat(table: array2<int>, i: nat, id: int, ghost cells: seq<int>)
    requires i == |cells| < 2 * table.Length0
    requires Filled(table, cells)
    modifies table
    ensures Filled(table, cells + [id])
  {
    table[i / 2, i % 2] := id;
    forall r, c | 0 <= r < table.Length0 && 0 <= c < 2
      ensures table[r, c] == if 2 * r + c < i + 1 then (cells + [id])[2 * r + c] else 0
    {
      SeatCell(i, r, c);
    }
  }

  /** The per-table loop: fill `table` from a stack holding `chunk`
      reversed.  `false` stands for the `IndexError` NumPy raises when the
      seat counter runs past the grid. */
  method FillTable(table: array2<int>, chunk: seq<Person>, friendsMap: Friends, ids: map<Person, nat>)
    returns (ok: bool)
    requires table.Length1 == 2
    requires Closed(friendsMap)
    requires forall q :: q in chunk ==> q in friendsMap
    requires forall p :: p in friendsMap ==> p in ids
    requires forall r, c :: 0 <= r < table.Length0 && 0 <= c < 2 ==> table[r, c] == 0
    modifies table
    ensures ok <==> |StackOrder(friendsMap, chunk)| <= 2 * table.Length0
    ensures ok ==> Holds(table, Layout(ids, StackOrder(friendsMap, chunk), 2 * table.Length0))
  {
    ghost var order := StackOrder(friendsMap, chunk);
    var stack := PushReversed(chunk);
    var i: nat := 0;
    var processed: set<Person> := {};
    ghost var seated: seq<Person> := [];
    ghost var cells: seq<int> := [];
    while stack != []
      invariant forall q :: q in stack ==> q in friendsMap
      invariant i == |seated| == |cells| <= 2 * table.Length0
      invariant forall k :: 0 <= k < i ==> seated[k] in ids && cells[k] == ids[seated[k]]
      invariant seated + Drain(friendsMap, stack, processed) == order
      invariant Filled(table, cells)
      decreases friendsMap.Keys + Elements(stack) - processed, |stack|
    {
      var person := stack[|stack| - 1];
      ghost var before := stack;
      stack := stack[..|stack| - 1];
      MeasureShrinks(friendsMap, before, processed);
      if person in processed {
        assert Drain(friendsMap, before, processed) == Drain(friendsMap, stack, processed) by {
          DrainPop(friendsMap, before, processed);
        }
      } else {
        assert Drain(friendsMap, before, processed)
            == [person] + Drain(friendsMap, stack + friendsMap[person], processed + {person}) by {
          DrainPop(friendsMap, before, processed);
        }
        if i / 2 >= table.Length0 {
          assert |order| >= i + 1;
          return false;
        }
        Seat(table, i, ids[person], cells);
        stack := stack + friendsMap[person];
        processed := processed + {person};
        Associate(seated, [person], Drain(friendsMap, stack, processed));
        ExtendCells(seated, cells, ids, person);
        seated := seated + [person];
        cells := cells + [ids[person]];
        i := i + 1;
      }
    }
    assert seated == order by {
      assert Drain(friendsMap, stack, processed) == [];
    }
    LayoutHolds(table, ids, order, cells);
    return true;
  }

  /** A grid holding `cells` from seat 0 on, then zeros, holds the layout
      of `order` when `cells` are the IDs of `order`. */
  lemma LayoutHolds(table: array2<int>, ids: map<Person, nat>, order: seq<Person>, cells: seq<int>)
    requires |cells| == |order|
    requires forall k :: 0 <= k < |order| ==> order[k] in ids && cells[k] == ids[order[k]]
    requires Filled(table, cells)
    ensures Holds(table, Layout(ids, order, 2 * table.Length0))
  {
  }
}
