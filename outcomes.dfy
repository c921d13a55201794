/** What a call of `initialise_tables` promises about its grids as a whole:
    who is seated, how many seats that takes, and what each cell holds. */
module Outcomes {
  import opened Wrappers
  import opened Text
  import opened Sequences
  import opened Affinity
  import opened Clustering
  import opened Chunking
  import opened Packing
  import opened Seating

  /** With no table sizes in the text there are no grids, and the call
      succeeds however many people are listed: nobody is seated. */
  lemma NoTables(tablesText: string, people: seq<Person>, ratio: Ratio)
    requires SplitWhitespace(tablesText) == []
    ensures Initialise(tablesText, people, ratio) == Success([])
  {
  }

  /** When there is at least one table, every listed person is seated at
      some table: the chunks cover the candidate order, which lists
      everyone, and every member of a chunk is seated at its table. */
  lemma SeatedSomewhere(ratio: Ratio, people: seq<Person>, sizes: seq<nat>, p: Person)
    requires sizes != [] && p in people
    ensures exists j :: 0 <= j < |sizes| && p in SeatOrders(ratio, people, sizes)[j]
  {
    var order := ClusterOrder(ratio, people);
    ClusterOrderComplete(ratio, people, p);
    var x :| 0 <= x < |order| && order[x] == p;
    var chunks := TableChunks(ratio, people, sizes);
    var j := ChunkOf(order, SplitPoints(Capacities(sizes)), x);
    assert chunks == SplitAt(order, SplitPoints(Capacities(sizes)));
    SeatingOrderComplete(ratio, people, chunks[j], p);
    TableOrdersAt(FriendsMap(ratio, people), chunks, j);
    assert SeatOrders(ratio, people, sizes)[j] == SeatingOrder(ratio, people, chunks[j]);
  }

  /** The index of a chunk holding `s[x]`. */
  lemma ChunkOf<T>(s: seq<T>, points: seq<int>, x: nat) returns (j: nat)
    requires x < |s|
    ensures j < |SplitAt(s, points)| && s[x] in SplitAt(s, points)[j]
  {
    SplitAtCovers(s, points, x);
    j :| 0 <= j < |SplitAt(s, points)| && s[x] in SplitAt(s, points)[j];
  }

  /** A successful call on at least one table seats every listed person:
      their ID is in some cell of some grid. */
  lemma EveryoneSeated(tablesText: string, people: seq<Person>, ratio: Ratio, p: Person)
    requires Initialise(tablesText, people, ratio).Success?
    requires Initialise(tablesText, people, ratio).value != []
    requires p in people
    ensures var grids := Initialise(tablesText, people, ratio).value;
            exists j, k :: 0 <= j < |grids| && 0 <= k < |grids[j]| && grids[j][k] == PeopleIds(people)[p]
  {
    InitialiseStopsAtParse(tablesText, people, ratio);
    var sizes := ParseTableSizes(SplitWhitespace(tablesText)).value;
    var grids := Initialise(tablesText, people, ratio).value;
    var orders := SeatOrders(ratio, people, sizes);
    SeatedSomewhere(ratio, people, sizes, p);
    var j :| 0 <= j < |sizes| && p in orders[j];
    var k :| 0 <= k < |orders[j]| && orders[j][k] == p;
    ArrangedCell(PeopleIds(people), sizes, orders, j, k);
    assert grids[j][k] == PeopleIds(people)[p];
  }

  /** Every distinct person is in the concatenated seat orders. */
  lemma OrdersCoverPeople(ratio: Ratio, people: seq<Person>, sizes: seq<nat>)
    requires sizes != []
    ensures Elements(people) <= Elements(Concat(SeatOrders(ratio, people, sizes)))
  {
    var orders := SeatOrders(ratio, people, sizes);
    forall p | p in Elements(people) ensures p in Elements(Concat(orders)) {
      SeatedSomewhere(ratio, people, sizes, p);
      var j :| 0 <= j < |sizes| && p in orders[j];
      InConcat(orders, j, p);
    }
  }

  /** A successful call on at least one table has at least as many seats
      in its grids as there are distinct people; with fewer seats the call
      raises `IndexError`. */
  lemma SeatsSuffice(tablesText: string, people: seq<Person>, ratio: Ratio)
    requires Initialise(tablesText, people, ratio).Success?
    requires Initialise(tablesText, people, ratio).value != []
    ensures ParseTableSizes(SplitWhitespace(tablesText)).Success?
    ensures |Elements(people)| <= Total(Capacities(ParseTableSizes(SplitWhitespace(tablesText)).value))
  {
    InitialiseStopsAtParse(tablesText, people, ratio);
    var sizes := ParseTableSizes(SplitWhitespace(tablesText)).value;
    var orders := SeatOrders(ratio, people, sizes);
    OrdersCoverPeople(ratio, people, sizes);
    SubsetCard(Elements(people), Elements(Concat(orders)));
    ElementsCard(Concat(orders));
    ConcatBound(orders, Capacities(sizes));
  }

  /** A single table takes the whole candidate order as its chunk and
      seats every distinct person exactly once. */
  lemma OneTableSeatsEveryone(ratio: Ratio, people: seq<Person>, n: nat)
    ensures Elements(SeatOrders(ratio, people, [n])[0]) == Elements(people)
    ensures |SeatOrders(ratio, people, [n])[0]| == |Elements(people)|
  {
    var order := SeatOrders(ratio, people, [n])[0];
    forall p | p in people ensures p in order {
      SeatedSomewhere(ratio, people, [n], p);
    }
    assert Elements(order) == Elements(people);
    var chunks := TableChunks(ratio, people, [n]);
    TableOrdersAt(FriendsMap(ratio, people), chunks, 0);
    assert order == SeatingOrder(ratio, people, chunks[0]);
    SeatingOrderDistinct(ratio, people, chunks[0]);
    NoDuplicatesCard(order);
  }

  /** `initialise_tables(str(n), people)` succeeds exactly when the one
      grid of `n // 2` rows has a seat for every distinct person, and
      otherwise raises `IndexError` for row `n // 2`. */
  lemma SingleTable(n: nat, people: seq<Person>, ratio: Ratio)
    ensures var r := Initialise(ShowNat(n), people, ratio);
            (r.Success? <==> |Elements(people)| <= Capacity(n)) &&
            (r.Failure? ==> r.error == IndexOutOfBounds(n / 2, n / 2))
  {
    SingleSizeText(n);
    InitialiseStopsAtParse(ShowNat(n), people, ratio);
    var orders := SeatOrders(ratio, people, [n]);
    OneTableSeatsEveryone(ratio, people, n);
    assert orders == [orders[0]];
    ArrangeOne(PeopleIds(people), n, orders[0]);
  }

  /** The table text "0" gives a grid without seats: the call fails as
      soon as anyone is listed. */
  lemma ZeroSizeTable(people: seq<Person>, ratio: Ratio)
    requires people != []
    ensures Initialise("0", people, ratio) == Failure(IndexOutOfBounds(0, 0))
  {
    assert ShowNat(0) == "0";
    SingleTable(0, people, ratio);
    assert people[0] in Elements(people);
  }

  /** The text `str(n)` lists the one size `n`. */
  lemma SingleSizeText(n: nat)
    ensures ParseTableSizes(SplitWhitespace(ShowNat(n))) == Success([n])
  {
    assert ShowSizes([n]) == ShowNat(n) by {
      assert seq(1, k requires 0 <= k < 1 => ShowNat([n][k])) == [ShowNat(n)];
    }
    TableTextRoundTrip([n]);
  }

  /** On success grid `j` lists, seat by seat, the IDs of the people its
      table seats and then zeros: a cell is non-zero exactly at the seats
      taken, and the ID in a seat names the person seated there. */
  lemma GridCells(tablesText: string, people: seq<Person>, ratio: Ratio, sizes: seq<nat>, j: nat)
    requires ParseTableSizes(SplitWhitespace(tablesText)) == Success(sizes)
    requires Initialise(tablesText, people, ratio).Success?
    requires j < |sizes|
    ensures var cells := Initialise(tablesText, people, ratio).value[j];
            |cells| == Capacity(sizes[j]) && |SeatOrders(ratio, people, sizes)[j]| <= |cells|
    ensures var cells, order := Initialise(tablesText, people, ratio).value[j], SeatOrders(ratio, people, sizes)[j];
            forall k :: 0 <= k < |cells| ==> (cells[k] != 0 <==> k < |order|)
    ensures var cells, order := Initialise(tablesText, people, ratio).value[j], SeatOrders(ratio, people, sizes)[j];
            forall k :: 0 <= k < |order| ==> cells[k] in IdPeople(people) && IdPeople(people)[cells[k]] == order[k]
  {
    InitialiseStopsAtParse(tablesText, people, ratio);
    var ids, orders := PeopleIds(people), SeatOrders(ratio, people, sizes);
    var grids := Initialise(tablesText, people, ratio).value;
    assert Initialise(tablesText, people, ratio) == Arrange(ids, sizes, orders);
    GridOfArrange(people, sizes, orders, j);
  }

  /** `GridCells` on the arrangement itself. */
  lemma GridOfArrange(people: seq<Person>, sizes: seq<nat>, orders: seq<seq<Person>>, j: nat)
    requires |orders| == |sizes|
    requires forall j, q :: 0 <= j < |orders| && q in orders[j] ==> q in people
    requires Arrange(PeopleIds(people), sizes, orders).Success?
    requires j < |sizes|
    ensures var cells := Arrange(PeopleIds(people), sizes, orders).value[j];
            |cells| == Capacity(sizes[j]) && |orders[j]| <= |cells|
    ensures var cells := Arrange(PeopleIds(people), sizes, orders).value[j];
            forall k :: 0 <= k < |cells| ==> (cells[k] != 0 <==> k < |orders[j]|)
    ensures var cells := Arrange(PeopleIds(people), sizes, orders).value[j];
            forall k :: 0 <= k < |orders[j]| ==> cells[k] in IdPeople(people) && IdPeople(people)[cells[k]] == orders[j][k]
  {
    var ids := PeopleIds(people);
    var cells := Arrange(ids, sizes, orders).value[j];
    ArrangedCell(ids, sizes, orders, j, 0);
    forall k | 0 <= k < |cells| ensures cells[k] == if k < |orders[j]| then ids[orders[j][k]] else 0 {
      ArrangedCell(ids, sizes, orders, j, k);
    }
    forall k | 0 <= k < |orders[j]|
      ensures cells[k] in IdPeople(people) && IdPeople(people)[cells[k]] == orders[j][k]
    {
      IdsRoundTrip(people, orders[j][k]);
    }
  }

  /** On success nobody holds two seats of one grid, and a grid seats
      someone exactly when its chunk of the candidate order is non-empty. */
  lemma GridDistinct(tablesText: string, people: seq<Person>, ratio: Ratio, sizes: seq<nat>, j: nat)
    requires ParseTableSizes(SplitWhitespace(tablesText)) == Success(sizes)
    requires Initialise(tablesText, people, ratio).Success?
    requires j < |sizes|
    ensures var cells := Initialise(tablesText, people, ratio).value[j];
            forall k1, k2 :: 0 <= k1 < k2 < |cells| && cells[k1] != 0 ==> cells[k1] != cells[k2]
    ensures var cells := Initialise(tablesText, people, ratio).value[j];
            (exists k :: 0 <= k < |cells| && cells[k] != 0) <==> TableChunks(ratio, people, sizes)[j] != []
  {
    var orders, chunks := SeatOrders(ratio, people, sizes), TableChunks(ratio, people, sizes);
    var cells := Initialise(tablesText, people, ratio).value[j];
    GridCells(tablesText, people, ratio, sizes, j);
    TableOrdersAt(FriendsMap(ratio, people), chunks, j);
    assert orders[j] == SeatingOrder(ratio, people, chunks[j]);
    SeatingOrderDistinct(ratio, people, chunks[j]);
    SeatingOrderEmpty(ratio, people, chunks[j]);
    forall k1, k2 | 0 <= k1 < k2 < |cells| && cells[k1] != 0 ensures cells[k1] != cells[k2] {
      if cells[k2] != 0 {
        assert IdPeople(people)[cells[k1]] == orders[j][k1];
        assert IdPeople(people)[cells[k2]] == orders[j][k2];
      }
    }
    if chunks[j] != [] {
      assert cells[0] != 0;
    }
  }
}
