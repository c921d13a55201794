# Seating plan initialisation, modelled and proved in Dafny

This project models the seating core of `plaseerausbotti`, a tool that drafts a
seating plan for a sitsit (an academic dinner party). Every guest is a `Person`
with a name and a free-text wish of whom to sit with (their "group").
`initialise_tables(tables_text, people)` works in these steps:

1. It reads the table sizes from a text such as `"60 60 60"`.
2. It allocates one zeroed `(size // 2) x 2` grid per table.
3. It numbers the guests 1..N and gives each guest a friend list: everyone
   else whose group wish is similar.
4. It orders the guests by the length of their friend list.
5. It cuts that order into one chunk per table.
6. It fills each grid from its chunk with a last-in-first-out stack.
   Whenever a guest is seated, their friends are pushed on top, so friends
   are seated depth first, next to each other.

It also models the header-keyword helpers that pick the name and group columns
of the registration export.

Modules, in dependency order:

- `Wrappers`: `Option` and `Result`.
- `Text`: the parts of Python's `str` the code relies on. These are
  `split()`, `lower()`, `<` on strings and `int()` on a token.
- `Keywords`: `_compare_keywords` and `_select_keyword`.
- `Affinity`: `Person`, its ordering, `_is_similar` and `_common_friends`.
- `Sequences`: generic facts about sequences.
- `Clustering`: the candidate order, that is, dictionary keys sorted by
  `(friend count, Person)`.
- `Chunking`: `np.cumsum(...)[:-1] - 1` and `np.split`, with Python's slice
  rules.
- `Packing`: the per-table stack loop. It is specified by the function `Drain`
  and implemented by the method `FillTable` on a two-dimensional array.
- `Seating`: the whole of `initialise_tables`. It has two forms: the
  function `Initialise` and the imperative method
  `InitialiseTables`, which is proved equal to it.
- `Outcomes`: theorems about the whole call.

The foreign `fuzz.ratio` is a parameter `ratio: (string, string) -> int`.
Nothing is assumed about it; symmetry appears only as an explicit hypothesis of
`Affinity.FriendshipSymmetric`.

The exceptions of the Python code are `Failure` values of one datatype:

- `InvalidLiteral`: `int()` raised `ValueError`.
- `NegativeDimensions`: `np.zeros` raised `ValueError` for a negative size.
- `IndexOutOfBounds`: NumPy raised `IndexError` when a table overflows.

Three points of the code's behaviour are easy to misread, and the model
keeps each as the code has it:

- Sort ties. The code sorts `(count, Person)` tuples (model.py:123). So people
  with equal friend counts are ordered by name and then group, not by their
  position in the input.
- Errors. The code defines no exception classes of its own. An overfull
  table raises NumPy's `IndexError`; a bad size raises Python's `ValueError`.
- Seating once. `processed` is reset for each table (model.py:133), so a guest
  pulled in as a friend can be seated at several tables. The model proves only
  what holds:
  - on success everyone is seated somewhere;
  - nobody sits twice at one table.

## Model

| member | source | states |
|---|---|---|
| Text.SplitWhitespace | plaseerausbotti/model.py:115 | `str.split()` yields only non-empty tokens free of white space; a text of white space alone gives no token, and a non-empty text without white space is its own single token |
| Text.SplitSkipsSpace | plaseerausbotti/model.py:115 | white space in front of a text, of any kind and length, changes nothing in its split |
| Text.SplitTakesToken | plaseerausbotti/model.py:115 | a word followed by any non-empty run of white space (tabs and repeated spaces included) is one token, and splitting goes on after the run; with `Text.SplitSkipsSpace` this fixes the split of every text |
| Text.SplitKeepsText | plaseerausbotti/model.py:115 | splitting loses nothing but white space: the tokens written one after the other are exactly the text's non-white-space characters |
| Text.SplitJoinRoundTrip | plaseerausbotti/model.py:31 | splitting a text of space-separated words gives back exactly those words |
| Text.LowerChar | plaseerausbotti/model.py:31 | `lower()` maps `A`..`Z` and the Latin-1 capitals `À`..`Þ` (not `×`) 32 code points down to their small letters, and keeps every other character |
| Text.Lower | plaseerausbotti/model.py:31 | `lower()` keeps the length, lowers character by character, and lowering its result again changes nothing |
| Text.StrLess | plaseerausbotti/model.py:11 | string `<` never holds between equal strings, and a prefix is less than a string exactly when it is a proper prefix |
| Text.StrLessIrreflexive | plaseerausbotti/model.py:11 | no string is less than itself (the ordering `order=True` gives `Person`) |
| Text.StrLessTransitive | plaseerausbotti/model.py:11 | the string ordering is transitive |
| Text.StrLessTotal | plaseerausbotti/model.py:11 | two different strings are ordered one way or the other |
| Text.StrLessAsymmetric | plaseerausbotti/model.py:11 | never both `a < b` and `b < a` |
| Text.ParseInt | plaseerausbotti/model.py:115 | `int(token)` succeeds exactly on an optional sign followed by digits |
| Text.DigitsShowRoundTrip | plaseerausbotti/model.py:115 | reading the digits of a rendered number gives the number |
| Text.ParseShowRoundTrip | plaseerausbotti/model.py:115 | `int()` reads back `n`, `-n` and `+n` from their renderings |
| Keywords.AnyIn | plaseerausbotti/model.py:31 | `any(...)` is true exactly when some word is in the keyword set |
| Keywords.CompareKeywords | plaseerausbotti/model.py:29-31 | a header matches exactly when some word of its lower-cased split is a keyword |
| Keywords.FirstTrue | plaseerausbotti/model.py:37 | `np.where(i)[0][0]` is the first index holding `True`, and fails exactly when none does |
| Keywords.Matches | plaseerausbotti/model.py:36 | one flag per header, in header order, each telling whether that header matches |
| Keywords.SelectKeyword | plaseerausbotti/model.py:34-37 | selects the first matching header with no earlier header matching; fails exactly when no header matches |
| Keywords.GroupHeaderExample | plaseerausbotti/model.py:26-37 | among `["Etunimi", "Sit with"]` the group column is `"Sit with"` |
| Keywords.NotGroupHeader | plaseerausbotti/model.py:26-31 | `"Etunimi"` holds no group keyword |
| Keywords.GroupHeader | plaseerausbotti/model.py:26-31 | `"Sit with"` matches the group keywords once lower-cased |
| Affinity.PersonLess | plaseerausbotti/model.py:11-21 | the `order=True` comparison never holds between equal persons, and between different names it is the order of the names |
| Affinity.PersonLessIrreflexive | plaseerausbotti/model.py:11-21 | no `Person` is less than itself |
| Affinity.PersonLessTransitive | plaseerausbotti/model.py:11-21 | the `Person` ordering (name, then group) is transitive |
| Affinity.PersonLessTotal | plaseerausbotti/model.py:11-21 | two different persons are ordered one way or the other |
| Affinity.IsSimilar | plaseerausbotti/model.py:71-82 | two groups are similar exactly when their ratio is at least 88, so a ratio of exactly 87 is not enough |
| Affinity.IsFriend | plaseerausbotti/model.py:100 | nobody passes the friend test with themself, and whoever passes it has a similar group |
| Affinity.CommonFriends | plaseerausbotti/model.py:85-102 | every friend found is in the list, has another name and a similar group (ratio above 87); there are no more friends than people |
| Affinity.CommonFriendsAppend | plaseerausbotti/model.py:99-101 | the filter keeps list order: the friends in `xs + ys` are those in `xs` followed by those in `ys` |
| Affinity.CommonFriendsCount | plaseerausbotti/model.py:99-101 | each person occurs in the result as often as in the list when they pass the test, and never otherwise |
| Affinity.CommonFriendsComplete | plaseerausbotti/model.py:100-101 | nobody in the list who passes the test is missed |
| Affinity.FriendshipSymmetric | plaseerausbotti/model.py:82 | when the ratio gives the same score both ways on two listed people's groups, each is in the other's friend list exactly when the other is in theirs |
| Affinity.CollectCommonFriends | plaseerausbotti/model.py:98-102 | the appending loop computes exactly the filter |
| Sequences.Distinct | plaseerausbotti/model.py:120 | the keys of a dictionary built from a list: each element once, nothing else |
| Sequences.NoDuplicatesCard | plaseerausbotti/model.py:120 | a list without repetitions has as many entries as distinct elements |
| Clustering.InsertEntry | plaseerausbotti/model.py:123 | insertion adds exactly the one pair (as multisets) |
| Clustering.SortEntries | plaseerausbotti/model.py:123 | `sorted()` permutes its input |
| Clustering.InsertEntrySorted | plaseerausbotti/model.py:123 | inserting a new pair into a strictly sorted list keeps it strictly sorted |
| Clustering.SortEntriesSorted | plaseerausbotti/model.py:123 | `sorted()` of distinct pairs is strictly ascending in tuple order |
| Clustering.ClusterEntries | plaseerausbotti/model.py:122-123 | one `(friend count, person)` pair per dictionary key, in key order |
| Clustering.ClusterOrder | plaseerausbotti/model.py:123 | the candidate order has one entry per distinct person (`Clustering.ClusterOrderSpec` states the rest) |
| Clustering.ClusterOrderComplete | plaseerausbotti/model.py:123 | every listed person appears in the candidate order |
| Clustering.ClusterOrderSpec | plaseerausbotti/model.py:122-123 | the candidate order holds each distinct person once and ascends by friend count, ties by name then group |
| Chunking.Capacity | plaseerausbotti/model.py:116 | a grid of `size // 2` rows and 2 columns has an even number of seats, at most `size` and at least `size - 1` |
| Chunking.CapacityParity | plaseerausbotti/model.py:116 | a grid of `size // 2` rows holds `size` seats for an even size and one seat fewer for an odd size |
| Chunking.Total | plaseerausbotti/model.py:124 | the running sum `np.cumsum` ends with is at least each table's seats |
| Chunking.SplitPoints | plaseerausbotti/model.py:124 | one split point between each two tables, none for a single table |
| Chunking.SliceBound | plaseerausbotti/model.py:126 | a slice bound is read as Python reads it: a bound in `0..n` as is, a negative one from the end, one past `n` as `n` and one before `-n` as 0 |
| Chunking.PySlice | plaseerausbotti/model.py:126 | `s[lo:hi]` is never longer than `s`, and with bounds inside `0..len(s)` it is the plain sub-sequence |
| Chunking.SplitAt | plaseerausbotti/model.py:126 | `np.split` gives one more chunk than split points, each the slice between consecutive bounds |
| Chunking.SplitAtCovers | plaseerausbotti/model.py:126 | every element of the order lands in some chunk |
| Chunking.SplitAtMembers | plaseerausbotti/model.py:126 | every member of a chunk comes from the order |
| Chunking.SplitAtPartition | plaseerausbotti/model.py:126 | with non-negative, non-decreasing split points the chunks read in order give back the order |
| Chunking.TableSplitPartition | plaseerausbotti/model.py:124-126 | when the first table has a seat, the chunks partition the candidate order |
| Chunking.SingleTableOneChunk | plaseerausbotti/model.py:124-126 | a single table takes the whole order as its one chunk |
| Chunking.ChunkBounds | plaseerausbotti/model.py:124-126 | chunk `j > 0` starts one before the seats of the tables before it |
| Chunking.ChunkSizes | plaseerausbotti/model.py:124-126 | the first chunk is one short of its table's seats, middle chunks match theirs, and the last takes everyone remaining |
| Chunking.FirstTableWithoutSeats | plaseerausbotti/model.py:124-126 | a first table with no seats gives split point -1, so its chunk is everyone but the last person |
| Chunking.ConcatBound | plaseerausbotti/model.py:126 | chunks that each fit their seats fit the total seats together |
| Packing.FriendsMap | plaseerausbotti/model.py:120 | the friend dictionary is keyed by exactly the listed people, each with their common friends, and every friend is itself a key |
| Packing.StackOrder | plaseerausbotti/model.py:128-143 | a table seats only dictionary keys |
| Packing.SeatingOrder | plaseerausbotti/model.py:128-143 | a table seats only listed people |
| Packing.Pushed | plaseerausbotti/model.py:139-140 | the friends pushed for a key are its friend list, and in a closed dictionary they are all keys, so the lookup never fails |
| Packing.Drain | plaseerausbotti/model.py:134-143 | the loop seats only people not yet processed, each from the stack or from the dictionary |
| Packing.DrainSeatsNewPeople | plaseerausbotti/model.py:136-142 | nobody is seated twice at one table or seated if already processed |
| Packing.DrainComplete | plaseerausbotti/model.py:134-143 | everyone on the stack ends up seated unless already processed |
| Packing.DrainDepthFirst | plaseerausbotti/model.py:134-143 | whatever is on top of the stack is seated, with everyone it pulls in, before anything beneath it |
| Packing.DrainProvenance | plaseerausbotti/model.py:134-143 | each seated person was on the stack at first or is a friend of someone seated before them |
| Packing.SeatingOrderStart | plaseerausbotti/model.py:128-143 | the chunk's first member is seated first, then the friends they pull in, and only then the rest of the chunk |
| Packing.DrainTop | plaseerausbotti/model.py:134-143 | a stack with one person on top seats that person, then whoever they pull in, then the rest |
| Packing.SeatingOrderFirstTwo | plaseerausbotti/model.py:128-143 | seat 0 goes to the chunk's first member and seat 1 to their last friend, if they have one |
| Packing.SeatingOrderEmpty | plaseerausbotti/model.py:128-143 | a table seats nobody exactly when its chunk is empty |
| Packing.SeatingOrderComplete | plaseerausbotti/model.py:128-143 | every member of the chunk is seated at its table |
| Packing.SeatingOrderProvenance | plaseerausbotti/model.py:128-143 | everyone seated is from the chunk or a common friend of someone seated before them, possibly from another chunk |
| Packing.SeatingOrderDistinct | plaseerausbotti/model.py:133-142 | nobody is seated twice at one table |
| Packing.SeatingOrderBound | plaseerausbotti/model.py:133-142 | a table seats at most as many people as there are distinct people |
| Packing.SeatCell | plaseerausbotti/model.py:137 | seat `k` is cell `(k // 2, k % 2)` and no other |
| Packing.PushReversed | plaseerausbotti/model.py:128-130 | pushing the chunk reversed leaves its first member on top |
| Packing.Seat | plaseerausbotti/model.py:137 | writing seat `i` fills it and leaves later seats 0 |
| Packing.FillTable | plaseerausbotti/model.py:128-143 | the stack loop succeeds exactly when the table's seat order fits the grid, and then the grid holds that order's IDs seat by seat followed by zeros |
| Packing.LayoutHolds | plaseerausbotti/model.py:137 | a grid filled from seat 0 with the IDs of the order holds its layout |
| Packing.Layout | plaseerausbotti/model.py:116-137 | a table's cells: `seats` of them, seat `k` holding the ID of the `k`-th person seated and every later seat the 0 of `np.zeros` |
| Seating.TokenSize | plaseerausbotti/model.py:115-116 | a token gives a size when `int()` reads a non-negative number; otherwise `ValueError` for an invalid literal or a negative size |
| Seating.ParseTableSizes | plaseerausbotti/model.py:115-116 | succeeds exactly when every token is a size, and then gives the sizes in order; otherwise the first bad token's error |
| Seating.ParseStopsAtFirstBadToken | plaseerausbotti/model.py:115-116 | the first token that is not a size decides the error |
| Seating.TableTextRoundTrip | plaseerausbotti/model.py:115-116 | reading back the decimal listing of any sizes gives those sizes |
| Seating.LastIndex | plaseerausbotti/model.py:119 | the last position holding a person |
| Seating.IdPeople | plaseerausbotti/model.py:118 | IDs are exactly 1..N and ID `i` names the `i`-th person |
| Seating.PeopleIds | plaseerausbotti/model.py:119 | every listed person has an ID in 1..N naming them, the one of their last listing |
| Seating.IdsRoundTrip | plaseerausbotti/model.py:118-119 | a person's ID leads back to them |
| Seating.IdsInjective | plaseerausbotti/model.py:118-119 | different people get different IDs |
| Seating.TableChunks | plaseerausbotti/model.py:126 | one chunk per table, holding only listed people |
| Seating.TableOrders | plaseerausbotti/model.py:126-143 | one seat order per table, holding only dictionary keys |
| Seating.TableOrdersAt | plaseerausbotti/model.py:126-143 | table `j` seats the order its own chunk produces |
| Seating.Arrange | plaseerausbotti/model.py:126-143 | succeeds exactly when every table's order fits, then gives each table's layout; otherwise `IndexError` at the first table that overflows |
| Seating.ArrangeOne | plaseerausbotti/model.py:137 | a single table gives its layout when its order fits and `IndexError` for row `size // 2` otherwise |
| Seating.ArrangedCell | plaseerausbotti/model.py:137 | in a successful arrangement, seat `k` of table `j` holds the ID of its `k`-th seated person or 0 |
| Seating.SeatOrders | plaseerausbotti/model.py:120-143 | one seat order per table, holding only listed people |
| Seating.Initialise | plaseerausbotti/model.py:105-145 | a size error is the call's error; on success one grid per size token, each with the seats of its size, and every cell 0 or an ID in 1..N |
| Seating.ArrangeCellsBounded | plaseerausbotti/model.py:118-137 | every cell of an arrangement is 0 or one of the IDs handed out |
| Seating.BuildFriendsMap | plaseerausbotti/model.py:120 | the comprehension builds exactly the friend dictionary |
| Seating.NewTable | plaseerausbotti/model.py:116 | a fresh zeroed grid of `size // 2` rows and 2 columns |
| Seating.AllocateTables | plaseerausbotti/model.py:115-116 | one fresh, distinct, zeroed grid per size, or the parsing error |
| Seating.FillTables | plaseerausbotti/model.py:126-143 | fills every grid with its layout, or names the first table that overflows |
| Seating.SeatTables | plaseerausbotti/model.py:118-143 | once the grids exist, the call fails exactly when the arrangement does and with its `IndexError`, and otherwise leaves every grid holding its table's layout |
| Seating.InitialiseTables | plaseerausbotti/model.py:105-145 | the imperative call fails exactly when `Seating.Initialise` does and with its error; on success it returns the ID map and fresh grids holding the layouts `Seating.Initialise` gives |
| Seating.ArrangeStopsAtFirstOverfull | plaseerausbotti/model.py:137 | the first table that overflows decides the error |
| Outcomes.NoTables | plaseerausbotti/model.py:124-126 | an empty table text gives no grids and no error, whoever is listed |
| Outcomes.SeatedSomewhere | plaseerausbotti/model.py:123-143 | with at least one table, every listed person is in some table's seat order |
| Outcomes.EveryoneSeated | plaseerausbotti/model.py:105-145 | a successful call on at least one table writes every listed person's ID into some grid |
| Outcomes.OrdersCoverPeople | plaseerausbotti/model.py:123-143 | the seat orders together contain every distinct person |
| Outcomes.SeatsSuffice | plaseerausbotti/model.py:115-143 | a successful call on at least one table has at least as many seats as distinct people |
| Outcomes.OneTableSeatsEveryone | plaseerausbotti/model.py:124-143 | a single table seats every distinct person exactly once |
| Outcomes.SingleTable | plaseerausbotti/model.py:105-145 | with one table of size `n` the call succeeds exactly when the distinct people fit in `2 * (n // 2)` seats, and otherwise raises `IndexError` for row `n // 2` |
| Outcomes.ZeroSizeTable | plaseerausbotti/model.py:115-137 | the table text `"0"` fails with `IndexError` as soon as anyone is listed |
| Outcomes.SingleSizeText | plaseerausbotti/model.py:115 | the text `str(n)` lists the one size `n` |
| Outcomes.GridCells | plaseerausbotti/model.py:116-143 | on success a grid has `2 * (size // 2)` cells; a cell is non-zero exactly at a taken seat, and its ID names the person seated there |
| Outcomes.GridOfArrange | plaseerausbotti/model.py:137 | the same facts stated on the arrangement itself |
| Outcomes.GridDistinct | plaseerausbotti/model.py:133-142 | on success no ID appears twice in a grid, and a grid seats someone exactly when its chunk is non-empty |

## Left out

- `read_csv`: file input through the `csv` module is not part of this model. Only its column-selection helpers are.
- `plot_graph`: the networkx and matplotlib drawing is not part of this model.
- `fuzz.ratio`: the Levenshtein ratio of the `thefuzz` library is a parameter with no properties.
- `Person.group` defaults to `None`. Comparing `None` groups while sorting raises `TypeError` in Python; the model's groups are always strings.
- `Text.ParseInt` covers an optional sign followed by ASCII digits. Tokens from `split()` hold no white space, but `int()` also accepts `_` separators between digits and non-ASCII decimal digits. For a size typed as `1_4`, or in such digits, Python reads the number and the model reports `InvalidLiteral`: the model diverges from the code there.
- `Text.LowerChar` lowers ASCII and Latin-1 letters only. Python's full Unicode case mapping is left out.
- The `ValueError` of `np.zeros` for a negative size carries NumPy's message text, which the model does not reproduce. `Seating.SeatingError.NegativeDimensions` keeps the offending size.
- Allocation failure for huge sizes (`MemoryError`) and NumPy's `int64` dtype are not modelled: sizes and IDs are unbounded integers.
- `Packing.Pushed` returns no friends for a person outside the friend dictionary, where Python would raise `KeyError`. Every stack starts from and only grows with dictionary keys, so that branch is never taken.
- Seating a person at most once across all tables is not claimed: `processed` is reset per table, so the code can seat someone at several tables.
- The fixture of the repository's tests (a CSV of guests) is not part of this model, and neither are its friend lists, which depend on `fuzz.ratio`. Of the tests' table texts:
  - `"0"` fails for every non-empty guest list (`Outcomes.ZeroSizeTable`).
  - For `"27"` and `"28"`, `Outcomes.SingleTable` gives the outcome for any guest list: success exactly when the distinct guests fit in 26 or 28 seats.
  - For `"14 8 2"`, `Outcomes.SeatsSuffice` shows failure only when there are more than 24 distinct guests.
  - Whether `"14 14"` and `"14 8 6"` succeed depends on the fixture's guests and friend lists, so the model does not decide it.
