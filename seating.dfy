/** `initialise_tables`: parse the table sizes, number the people, build
    the friend lists, order the people by friend count, cut that order into
    one chunk per table and fill every table's grid from its chunk. */
module Seating {
  import opened Wrappers
  import opened Text
  import opened Sequences
  import opened Affinity
  import opened Clustering
  import opened Chunking
  import opened Packing

  /** The exceptions the call can raise. */
  datatype SeatingError =
    | InvalidLiteral(token: string)            // `int(token)`: ValueError
    | NegativeDimensions(size: int)            // `np.zeros` of a negative size: ValueError
    | IndexOutOfBounds(index: nat, length: nat)  // `table[i // 2, i % 2]` past the last row: IndexError

  // ---------------------------------------------------------------------
  // Table sizes

  /** One token of the table text: `int(token)`, then the grid
      `np.zeros([size // 2, 2])`, which refuses a negative size. */
  function TokenSize(token: string): (r: Result<nat, SeatingError>)
    ensures r.Success? <==> ParseInt(token).Some? && ParseInt(token).value >= 0
    ensures r.Success? ==> r.value as int == ParseInt(token).value
    ensures r.Failure? && ParseInt(token).None? ==> r.error == InvalidLiteral(token)
    ensures r.Failure? && ParseInt(token).Some? ==> r.error == NegativeDimensions(ParseInt(token).value)
  {
    match ParseInt(token)
    case None => Failure(InvalidLiteral(token))
    case Some(v) => if v < 0 then Failure(NegativeDimensions(v)) else Success(v)
  }

  /** The sizes of `map(int, tables_text.split())`, consumed in order: the
      first token that fails decides the error. */
  function ParseTableSizes(tokens: seq<string>): (r: Result<seq<nat>, SeatingError>)
    ensures r.Success? <==> forall k :: 0 <= k < |tokens| ==> TokenSize(tokens[k]).Success?
    ensures r.Success? ==> |r.value| == |tokens|
    ensures r.Success? ==> forall k :: 0 <= k < |tokens| ==> r.value[k] == TokenSize(tokens[k]).value
    ensures r.Failure? ==> exists k :: 0 <= k < |tokens| && FirstBadToken(tokens, k) &&
                                      r.error == TokenSize(tokens[k]).error
  {
    if tokens == [] then Success([])
    else
      var init, last := tokens[..|tokens| - 1], tokens[|tokens| - 1];
      assert forall k :: 0 <= k < |init| ==> init[k] == tokens[k];
      match ParseTableSizes(init)
      case Failure(e) => Failure(e)
      case Success(sizes) =>
        match TokenSize(last)
        case Failure(e) => Failure(e)
        case Success(n) => Success(sizes + [n])
  }

  /** Reading one more good token appends its size. */
  lemma ParseOneMore(tokens: seq<string>, k: nat)
    requires k < |tokens|
    requires ParseTableSizes(tokens[..k]).Success? && TokenSize(tokens[k]).Success?
    ensures ParseTableSizes(tokens[..k + 1])
         == Success(ParseTableSizes(tokens[..k]).value + [TokenSize(tokens[k]).value])
  {
    assert tokens[..k + 1][..k] == tokens[..k];
  }

  /** `tokens[k]` is the first token that is not a table size. */
  predicate FirstBadToken(tokens: seq<string>, k: nat)
    requires k < |tokens|
  {
    TokenSize(tokens[k]).Failure? && forall j :: 0 <= j < k ==> TokenSize(tokens[j]).Success?
  }

  /** When every token before `k` is a size and `tokens[k]` is not, the
      call raises the error of `tokens[k]`. */
  lemma ParseStopsAtFirstBadToken(tokens: seq<string>, k: nat)
    requires k < |tokens| && FirstBadToken(tokens, k)
    ensures ParseTableSizes(tokens) == Failure(TokenSize(tokens[k]).error)
  {
    var r := ParseTableSizes(tokens);
    var m :| 0 <= m < |tokens| && FirstBadToken(tokens, m) && r.error == TokenSize(tokens[m]).error;
    assert TokenSize(tokens[m]).Failure? && TokenSize(tokens[k]).Failure?;
  }

  /** The table text that lists `sizes` in decimal, separated by spaces. */
  function ShowSizes(sizes: seq<nat>): (text: string)
  {
    JoinSpaced(seq(|sizes|, k requires 0 <= k < |sizes| => ShowNat(sizes[k])))
  }

  /** Reading the sizes back from their decimal listing gives the sizes. */
  lemma TableTextRoundTrip(sizes: seq<nat>)
    ensures ParseTableSizes(SplitWhitespace(ShowSizes(sizes))) == Success(sizes)
  {
    var tokens := seq(|sizes|, k requires 0 <= k < |sizes| => ShowNat(sizes[k]));
    forall k | 0 <= k < |tokens| ensures tokens[k] != [] && NoSpace(tokens[k]) {
      DigitsHaveNoSpace(tokens[k]);
    }
    SplitJoinRoundTrip(tokens);
    forall k | 0 <= k < |tokens| ensures TokenSize(tokens[k]) == Success(sizes[k]) {
      ParseShowRoundTrip(sizes[k]);
    }
    var r := ParseTableSizes(tokens);
    assert r.Success?;
    assert r.value == sizes;
  }

  lemma DigitsHaveNoSpace(s: string)
    requires AllDigits(s)
    ensures NoSpace(s)
  {
  }

  // ---------------------------------------------------------------------
  // Person IDs

  /** The position of the last occurrence of `p`. */
  function LastIndex(people: seq<Person>, p: Person): (k: nat)
    requires p in people
    ensures k < |people| && people[k] == p
    ensures forall j :: k < j < |people| ==> people[j] != p
  {
    if people[|people| - 1] == p then |people| - 1
    else LastIndex(people[..|people| - 1], p)
  }

  /** `id_people_map = dict(enumerate(people, 1))` */
  function IdPeople(people: seq<Person>): (m: map<nat, Person>)
    ensures forall i :: i in m <==> 1 <= i <= |people|
    ensures forall i :: i in m ==> m[i] == people[i - 1]
  {
    if people == [] then map[]
    else IdPeople(people[..|people| - 1])[|people| := people[|people| - 1]]
  }

  /** `people_id_map = {p: i for i, p in id_people_map.items()}`: a person
      listed twice keeps the ID of their last listing. */
  function PeopleIds(people: seq<Person>): (ids: map<Person, nat>)
    ensures forall p :: p in ids <==> p in people
    ensures forall p :: p in ids ==> 1 <= ids[p] <= |people| && people[ids[p] - 1] == p
    ensures forall p, j :: p in ids && ids[p] <= j < |people| ==> people[j] != p
  {
    map p | p in people :: LastIndex(people, p) + 1
  }

  /** Each person's ID leads back to them. */
  lemma IdsRoundTrip(people: seq<Person>, p: Person)
    requires p in people
    ensures PeopleIds(people)[p] in IdPeople(people)
    ensures IdPeople(people)[PeopleIds(people)[p]] == p
  {
  }

  /** Different people get different IDs. */
  lemma IdsInjective(people: seq<Person>, p: Person, q: Person)
    requires p in people && q in people && p != q
    ensures PeopleIds(people)[p] != PeopleIds(people)[q]
  {
    IdsRoundTrip(people, p);
    IdsRoundTrip(people, q);
  }

  // ---------------------------------------------------------------------
  // The tables

  /** `np.split(people_clustered, table_splits)` paired with the tables by
      `zip`: one chunk per table, and none when there are no tables. */
  function TableChunks(ratio: Ratio, people: seq<Person>, sizes: seq<nat>): (chunks: seq<seq<Person>>)
    ensures |chunks| == |sizes|
    ensures forall j, q :: 0 <= j < |chunks| && q in chunks[j] ==> q in people
  {
    if sizes == [] then []
    else
      var order, points := ClusterOrder(ratio, people), SplitPoints(Capacities(sizes));
      ChunksFromPeople(ratio, people, points);
      SplitAt(order, points)
  }

  lemma ChunksFromPeople(ratio: Ratio, people: seq<Person>, points: seq<int>)
    ensures var chunks := SplitAt(ClusterOrder(ratio, people), points);
            forall j, q :: 0 <= j < |chunks| && q in chunks[j] ==> q in people
  {
    var order := ClusterOrder(ratio, people);
    ClusterOrderSpec(ratio, people);
    forall j, q | 0 <= j < |SplitAt(order, points)| && q in SplitAt(order, points)[j]
      ensures q in people
    {
      SplitAtMembers(order, points, j, q);
    }
  }

  /** The seat order of every table, from its chunk. */
  function TableOrders(friends: Friends, chunks: seq<seq<Person>>): (orders: seq<seq<Person>>)
    requires Closed(friends)
    requires forall j, q :: 0 <= j < |chunks| && q in chunks[j] ==> q in friends
    ensures |orders| == |chunks|
    ensures forall j, q :: 0 <= j < |orders| && q in orders[j] ==> q in friends
  {
    if chunks == [] then []
    else
      var init := chunks[..|chunks| - 1];
      assert forall j :: 0 <= j < |init| ==> init[j] == chunks[j];
      TableOrders(friends, init) + [StackOrder(friends, chunks[|chunks| - 1])]
  }

  lemma {:induction false} TableOrdersAt(friends: Friends, chunks: seq<seq<Person>>, j: nat)
    requires Closed(friends)
    requires forall j, q :: 0 <= j < |chunks| && q in chunks[j] ==> q in friends
    requires j < |chunks|
    ensures TableOrders(friends, chunks)[j] == StackOrder(friends, chunks[j])
  {
    var init := chunks[..|chunks| - 1];
    assert forall i :: 0 <= i < |init| ==> init[i] == chunks[i];
    if j < |chunks| - 1 {
      TableOrdersAt(friends, init, j);
    }
  }

  /** Table `j` is the first whose stack outgrows its grid. */
  predicate FirstOverfull(sizes: seq<nat>, orders: seq<seq<Person>>, j: nat)
    requires |orders| == |sizes| && j < |sizes|
  {
    |orders[j]| > Capacity(sizes[j]) && forall i :: 0 <= i < j ==> |orders[i]| <= Capacity(sizes[i])
  }

  /** The grids, table by table, as seat lists; the first table whose
      stack outgrows its grid raises `IndexError` for row `size // 2` of an
      axis of that length. */
  function Arrange(ids: map<Person, nat>, sizes: seq<nat>, orders: seq<seq<Person>>)
    : (r: Result<seq<seq<int>>, SeatingError>)
    requires |orders| == |sizes|
    requires forall j, q :: 0 <= j < |orders| && q in orders[j] ==> q in ids
    ensures r.Success? <==> forall j :: 0 <= j < |sizes| ==> |orders[j]| <= Capacity(sizes[j])
    ensures r.Success? ==> |r.value| == |sizes|
    ensures r.Success? ==> forall j :: 0 <= j < |sizes| ==>
              r.value[j] == Layout(ids, orders[j], Capacity(sizes[j]))
    ensures r.Failure? ==> exists j :: 0 <= j < |sizes| && FirstOverfull(sizes, orders, j) &&
                                      r.error == IndexOutOfBounds(sizes[j] / 2, sizes[j] / 2)
  {
    if sizes == [] then Success([])
    else
      assert forall j :: 0 <= j < |orders| - 1 ==> orders[1..][j] == orders[j + 1];
      if |orders[0]| > Capacity(sizes[0]) then Failure(IndexOutOfBounds(sizes[0] / 2, sizes[0] / 2))
      else
        match Arrange(ids, sizes[1..], orders[1..])
        case Failure(e) =>
          assert forall j :: 0 < j < |sizes| ==> FirstOverfull(sizes[1..], orders[1..], j - 1) ==>
            FirstOverfull(sizes, orders, j);
          Failure(e)
        case Success(rest) => Success([Layout(ids, orders[0], Capacity(sizes[0]))] + rest)
  }

  /** A single table: its grid when its order fits, `IndexError` otherwise. */
  lemma ArrangeOne(ids: map<Person, nat>, size: nat, order: seq<Person>)
    requires forall q :: q in order ==> q in ids
    ensures Arrange(ids, [size], [order])
         == if |order| <= Capacity(size) then Success([Layout(ids, order, Capacity(size))])
            else Failure(IndexOutOfBounds(size / 2, size / 2))
  {
    assert [size][1..] == [] && [order][1..] == [];
    assert Arrange(ids, [], []) == Success([]);
    assert [Layout(ids, order, Capacity(size))] + [] == [Layout(ids, order, Capacity(size))];
  }

  /** Seat `k` of table `j` in a successful arrangement. */
  lemma ArrangedCell(ids: map<Person, nat>, sizes: seq<nat>, orders: seq<seq<Person>>, j: nat, k: nat)
    requires |orders| == |sizes|
    requires forall j, q :: 0 <= j < |orders| && q in orders[j] ==> q in ids
    requires Arrange(ids, sizes, orders).Success?
    requires j < |sizes|
    ensures |orders[j]| <= Capacity(sizes[j])
    ensures |Arrange(ids, sizes, orders).value[j]| == Capacity(sizes[j])
    ensures k < Capacity(sizes[j]) ==>
              Arrange(ids, sizes, orders).value[j][k] == if k < |orders[j]| then ids[orders[j][k]] else 0
  {
    assert Arrange(ids, sizes, orders).value[j] == Layout(ids, orders[j], Capacity(sizes[j]));
  }

  /** The seat order of every table `sizes` describes. */
  function SeatOrders(ratio: Ratio, people: seq<Person>, sizes: seq<nat>): (orders: seq<seq<Person>>)
    ensures |orders| == |sizes|
    ensures forall j, q :: 0 <= j < |orders| && q in orders[j] ==> q in people
  {
    TableOrders(FriendsMap(ratio, people), TableChunks(ratio, people, sizes))
  }

  /** `initialise_tables(tables_text, people)`, the grids as seat lists. */
  function Initialise(tablesText: string, people: seq<Person>, ratio: Ratio)
    : (r: Result<seq<seq<int>>, SeatingError>)
    ensures ParseTableSizes(SplitWhitespace(tablesText)).Failure? ==>
              r == Failure(ParseTableSizes(SplitWhitespace(tablesText)).error)
    ensures r.Success? ==> ParseTableSizes(SplitWhitespace(tablesText)).Success?
    ensures r.Success? ==> |r.value| == |SplitWhitespace(tablesText)|
    ensures r.Success? ==> forall j :: 0 <= j < |r.value| ==>
              |r.value[j]| == Capacity(ParseTableSizes(SplitWhitespace(tablesText)).value[j])
    ensures r.Success? ==> forall j, k :: 0 <= j < |r.value| && 0 <= k < |r.value[j]| ==>
              0 <= r.value[j][k] <= |people|
  {
    match ParseTableSizes(SplitWhitespace(tablesText))
    case Failure(e) => Failure(e)
    case Success(sizes) =>
      var ids, orders := PeopleIds(people), SeatOrders(ratio, people, sizes);
      ArrangeCellsBounded(ids, sizes, orders, |people|);
      Arrange(ids, sizes, orders)
  }

  /** Every cell of an arrangement is 0 or one of the IDs handed out. */
  lemma ArrangeCellsBounded(ids: map<Person, nat>, sizes: seq<nat>, orders: seq<seq<Person>>, n: nat)
    requires |orders| == |sizes|
    requires forall j, q :: 0 <= j < |orders| && q in orders[j] ==> q in ids
    requires forall p :: p in ids ==> ids[p] <= n
    ensures var r := Arrange(ids, sizes, orders);
            r.Success? ==> forall j, k :: 0 <= j < |r.value| && 0 <= k < |r.value[j]| ==>
              0 <= r.value[j][k] <= n
  {
    var r := Arrange(ids, sizes, orders);
    if r.Success? {
      forall j, k | 0 <= j < |r.value| && 0 <= k < |r.value[j]|
        ensures 0 <= r.value[j][k] <= n
      {
        assert r.value[j] == Layout(ids, orders[j], Capacity(sizes[j]));
      }
    }
  }

  /** `friends_map = {p: _common_friends(p, people) for p in people}` */
  method BuildFriendsMap(ratio: Ratio, people: seq<Person>) returns (friends: Friends)
    ensures friends == FriendsMap(ratio, people)
  {
    friends := map[];
    for k := 0 to |people|
      invariant forall p :: p in friends ==> p in people && friends[p] == CommonFriends(ratio, p, people)
      invariant forall i :: 0 <= i < k ==> people[i] in friends
    {
      var p := people[k];
      var common := CollectCommonFriends(ratio, p, people);
      friends := friends[p := common];
    }
    ghost var m := FriendsMap(ratio, people);
    assert friends.Keys == m.Keys;
  }

  /** Every cell of the grid is 0. */
  ghost predicate Zeroed(table: array2<int>)
    reads table
  {
    forall r, c :: 0 <= r < table.Length0 && 0 <= c < table.Length1 ==> table[r, c] == 0
  }

  /** `np.zeros([size // 2, 2], dtype=int)` */
  method NewTable(size: nat) returns (table: array2<int>)
    ensures fresh(table)
    ensures table.Length0 == size / 2 && table.Length1 == 2 && Zeroed(table)
  {
    table := new int[size / 2, 2]((_, _) => 0);
  }

  /** `tables = [np.zeros([size // 2, 2], dtype=int) for size in
      map(int, tables_text.split())]`: one zeroed grid per token, in order,
      until a token fails. */
  method AllocateTables(tokens: seq<string>)
    returns (r: Result<seq<array2<int>>, SeatingError>, sizes: seq<nat>)
    ensures r.Failure? ==> ParseTableSizes(tokens) == Failure(r.error)
    ensures r.Success? ==> ParseTableSizes(tokens) == Success(sizes) && |r.value| == |sizes|
    ensures r.Success? ==> forall j :: 0 <= j < |sizes| ==>
              fresh(r.value[j]) && r.value[j].Length0 == sizes[j] / 2 && r.value[j].Length1 == 2 &&
              Zeroed(r.value[j])
    ensures r.Success? ==> forall i, j :: 0 <= i < j < |sizes| ==> r.value[i] != r.value[j]
  {
    var tables: seq<array2<int>> := [];
    sizes := [];
    for k := 0 to |tokens|
      invariant ParseTableSizes(tokens[..k]) == Success(sizes)
      invariant |tables| == |sizes|
      invariant forall j :: 0 <= j < |tables| ==>
                  fresh(tables[j]) && tables[j].Length0 == sizes[j] / 2 && tables[j].Length1 == 2 &&
                  Zeroed(tables[j])
      invariant forall i, j :: 0 <= i < j < |tables| ==> tables[i] != tables[j]
    {
      var size := TokenSize(tokens[k]);
      if size.Failure? {
        ParseStopsAtFirstBadToken(tokens, k);
        return Failure(size.error), sizes;
      }
      ParseOneMore(tokens, k);
      var table := NewTable(size.value);
      tables := tables + [table];
      sizes := sizes + [size.value];
    }
    assert tokens[..|tokens|] == tokens;
    return Success(tables), sizes;
  }

  /** The `for table, people_in_table in zip(...)` loop: fill every grid
      from its chunk, stopping at the first grid that overflows. */
  method FillTables(tables: seq<array2<int>>, sizes: seq<nat>, chunks: seq<seq<Person>>,
                    friendsMap: Friends, ids: map<Person, nat>)
    returns (overfull: Option<nat>)
    requires |tables| == |sizes| == |chunks|
    requires Closed(friendsMap)
    requires forall j, q :: 0 <= j < |chunks| && q in chunks[j] ==> q in friendsMap
    requires forall p :: p in friendsMap ==> p in ids
    requires forall j :: 0 <= j < |tables| ==>
               tables[j].Length0 == sizes[j] / 2 && tables[j].Length1 == 2 && Zeroed(tables[j])
    requires forall i, j :: 0 <= i < j < |tables| ==> tables[i] != tables[j]
    modifies set j | 0 <= j < |tables| :: tables[j]
    ensures var orders := TableOrders(friendsMap, chunks);
            overfull.None? ==> forall j :: 0 <= j < |tables| ==>
              |orders[j]| <= Capacity(sizes[j]) && Holds(tables[j], Layout(ids, orders[j], Capacity(sizes[j])))
    ensures overfull.Some? ==> overfull.value < |tables|
    ensures overfull.Some? ==> FirstOverfull(sizes, TableOrders(friendsMap, chunks), overfull.value)
  {
    ghost var orders := TableOrders(friendsMap, chunks);
    for j := 0 to |tables|
      invariant forall i :: j <= i < |tables| ==> Zeroed(tables[i])
      invariant forall i :: 0 <= i < j ==>
                  |orders[i]| <= 2 * tables[i].Length0 && Holds(tables[i], Layout(ids, orders[i], 2 * tables[i].Length0))
    {
      var ok := FillTable(tables[j], chunks[j], friendsMap, ids);
      TableOrdersAt(friendsMap, chunks, j);
      if !ok {
        return Some(j);
      }
    }
    return None;
  }

  /** `initialise_tables(tables_text, people)`: the filled grids and
      `id_people_map`, or the exception the call raises. */
  method InitialiseTables(tablesText: string, people: seq<Person>, ratio: Ratio)
    returns (r: Result<(seq<array2<int>>, map<nat, Person>), SeatingError>)
    ensures var spec := Initialise(tablesText, people, ratio);
            (r.Success? <==> spec.Success?) && (r.Failure? ==> r.error == spec.error)
    ensures r.Success? ==> r.value.1 == IdPeople(people)
    ensures r.Success? ==> var tables, spec := r.value.0, Initialise(tablesText, people, ratio).value;
              |tables| == |spec| &&
              forall j :: 0 <= j < |tables| ==> fresh(tables[j]) && Holds(tables[j], spec[j])
  {
    var grids, sizes := AllocateTables(SplitWhitespace(tablesText));
    if grids.Failure? {
      InitialiseStopsAtParse(tablesText, people, ratio);
      return Failure(grids.error);
    }
    var error := SeatTables(grids.value, sizes, people, ratio);
    InitialiseIsArrange(tablesText, people, ratio, sizes);
    if error.Some? {
      return Failure(error.value);
    }
    return Success((grids.value, IdPeople(people)));
  }

  /** The rest of `initialise_tables` once the grids exist: number the
      people, build the friend lists and fill every grid from its chunk.
      `Some` is the `IndexError` of the first table that overflows. */
  method SeatTables(tables: seq<array2<int>>, sizes: seq<nat>, people: seq<Person>, ratio: Ratio)
    returns (error: Option<SeatingError>)
    requires |tables| == |sizes|
    requires forall j :: 0 <= j < |tables| ==>
               tables[j].Length0 == sizes[j] / 2 && tables[j].Length1 == 2 && Zeroed(tables[j])
    requires forall i, j :: 0 <= i < j < |tables| ==> tables[i] != tables[j]
    modifies set j | 0 <= j < |tables| :: tables[j]
    ensures var spec := Arrange(PeopleIds(people), sizes, SeatOrders(ratio, people, sizes));
            (error.None? <==> spec.Success?) && (error.Some? ==> error.value == spec.error)
    ensures error.None? ==> var spec := Arrange(PeopleIds(people), sizes, SeatOrders(ratio, people, sizes)).value;
              forall j :: 0 <= j < |tables| ==> Holds(tables[j], spec[j])
  {
    var ids := PeopleIds(people);
    var friendsMap := BuildFriendsMap(ratio, people);
    var chunks := TableChunks(ratio, people, sizes);
    SeatingInputs(ratio, people, sizes);
    ghost var orders := SeatOrders(ratio, people, sizes);
    var overfull := FillTables(tables, sizes, chunks, friendsMap, ids);
    if overfull.Some? {
      var j := overfull.value;
      ArrangeStopsAtFirstOverfull(ids, sizes, orders, j);
      return Some(IndexOutOfBounds(sizes[j] / 2, sizes[j] / 2));
    }
    ArrangeFilled(ids, sizes, orders, tables);
    return None;
  }

  /** What filling the tables needs of the dictionary, the chunks and the IDs. */
  lemma SeatingInputs(ratio: Ratio, people: seq<Person>, sizes: seq<nat>)
    ensures var friends, chunks := FriendsMap(ratio, people), TableChunks(ratio, people, sizes);
            (forall j, q :: 0 <= j < |chunks| && q in chunks[j] ==> q in friends) &&
            (forall p :: p in friends ==> p in PeopleIds(people)) &&
            TableOrders(friends, chunks) == SeatOrders(ratio, people, sizes)
  {
  }

  /** Grids that each hold their table's layout are the arrangement. */
  lemma ArrangeFilled(ids: map<Person, nat>, sizes: seq<nat>, orders: seq<seq<Person>>, tables: seq<array2<int>>)
    requires |orders| == |sizes| == |tables|
    requires forall j, q :: 0 <= j < |orders| && q in orders[j] ==> q in ids
    requires forall j :: 0 <= j < |tables| ==>
               |orders[j]| <= Capacity(sizes[j]) && Holds(tables[j], Layout(ids, orders[j], Capacity(sizes[j])))
    ensures Arrange(ids, sizes, orders).Success?
    ensures forall j :: 0 <= j < |tables| ==> Holds(tables[j], Arrange(ids, sizes, orders).value[j])
  {
  }

  /** The call either fails while reading the sizes or arranges the tables
      those sizes describe. */
  lemma InitialiseStopsAtParse(tablesText: string, people: seq<Person>, ratio: Ratio)
    ensures var parsed := ParseTableSizes(SplitWhitespace(tablesText));
            parsed.Failure? ==> Initialise(tablesText, people, ratio) == Failure(parsed.error)
    ensures var parsed := ParseTableSizes(SplitWhitespace(tablesText));
            parsed.Success? ==>
              Initialise(tablesText, people, ratio)
                == Arrange(PeopleIds(people), parsed.value, SeatOrders(ratio, people, parsed.value))
  {
  }

  lemma InitialiseIsArrange(tablesText: string, people: seq<Person>, ratio: Ratio, sizes: seq<nat>)
    requires ParseTableSizes(SplitWhitespace(tablesText)) == Success(sizes)
    ensures Initialise(tablesText, people, ratio)
         == Arrange(PeopleIds(people), sizes, SeatOrders(ratio, people, sizes))
  {
  }

  /** The first table that overflows decides the error. */
  lemma ArrangeStopsAtFirstOverfull(ids: map<Person, nat>, sizes: seq<nat>, orders: seq<seq<Person>>, j: nat)
    requires |orders| == |sizes| && j < |sizes|
    requires forall j, q :: 0 <= j < |orders| && q in orders[j] ==> q in ids
    requires FirstOverfull(sizes, orders, j)
    ensures Arrange(ids, sizes, orders) == Failure(IndexOutOfBounds(sizes[j] / 2, sizes[j] / 2))
  {
    var r := Arrange(ids, sizes, orders);
    var m :| 0 <= m < |sizes| && FirstOverfull(sizes, orders, m) &&
             r.error == IndexOutOfBounds(sizes[m] / 2, sizes[m] / 2);
    assert |orders[m]| > Capacity(sizes[m]) && |orders[j]| > Capacity(sizes[j]);
  }
}
