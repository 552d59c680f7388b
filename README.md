# Player score store — verified model

A small Go HTTP service records wins for poker players and reports a player's
score and a league table. This project models the stores behind that service
in Dafny:

- the production `InMemoryPlayerStore`, a `map[string]int` field incremented in
  place (`scores[name]++`) and read with Go's zero-value default;
- the test double `StubPlayerStore`, which serves a seeded score map, logs every
  `RecordWin` call instead of counting it, and lists its map as a league table
  in Go's unspecified map iteration order;
- the test helper `assertPlayers`, which sorts two league lists by name in place
  (Go string order) and compares them, so that leagues compare without regard
  to order;
- the test scenarios that drive these stores (three wins give a score of 3,
  seeded scores 20/10/0, one POST logs `["Pepper"]`, a seeded league matches its
  expected list).

Modules:

- `Scores` (`scores.dfy`): the score map as the stores read and update it
  (`Score`, `Bump`), a run of recorded wins (`Replay`) and the counting lemmas:
  a score is the number of wins recorded for the name, other names are left
  alone, increments commute and only the multiset of names matters.
- `InMemoryStore` (`in_memory_player_store.dfy`): the class with its map field.
  A ghost history of recorded names is tied to the map by `Valid()`, so every
  read is the number of wins recorded for that name.
- `Names` (`names.dfy`): Go's `<` on strings as lexicographic order on
  characters, and the total-order lemmas the sort needs. For names that are
  valid UTF-8, code-point order agrees with the byte order Go compares; names
  that are not valid UTF-8 are outside the model (see "Left out").
- `League` (`league.dfy`): `Player{Name, Wins}`, what it means for a list to be
  the league of a score map, and the lemmas that such a list has one entry per
  key, that two leagues of one map are permutations of each other, and that
  sorting by name makes a list with distinct names unique.
- `ServerTest` (`server_test.dfy`): the stub store, the in-place insertion sort
  that stands for `sort.SliceStable`, `assertPlayers`, and the scenarios of the
  unit tests.
- `IntegrationTest` (`server_integration_test.dfy`): the scenario of the
  integration test on the production store.

Go's `int` is modelled as an unbounded `int`. The production store proves that
every stored entry is at least 1, so its scores are non-negative and a score of
0 means exactly that no win was recorded for the name.

## Model

| member | source | states |
|---|---|---|
| `Scores.BumpScore` | in_memory_player_store.go:11-13 | one increment raises the named player's score by exactly 1, creating it at 1 when absent, leaves every other score unchanged, and adds only that name to the keys |
| `Scores.BumpCommutes` | in_memory_player_store.go:11-13 | increments of two names commute: both orders give the same map |
| `Scores.ReplayScore` | in_memory_player_store.go:7-13 | after any run of recorded wins a name's score has grown by exactly the number of calls that named it |
| `Scores.ReplayKeys` | in_memory_player_store.go:11-13 | a run of recorded wins adds exactly the names it mentions to the map's keys |
| `Scores.ReplayOrderIndependent` | in_memory_player_store.go:11-13 | two runs of calls naming the same multiset of players produce the same map, whatever their interleaving |
| `Scores.RepeatedWins` | server_integration_test.go:12-24 | from the empty map, k recorded wins for a name give that name a score of k |
| `Scores.ReplayKeepsPositive` | in_memory_player_store.go:11-16 | starting from a map whose entries are all at least 1 (such as the empty map), recorded wins keep every entry at least 1 |
| `InMemoryStore.InMemoryPlayerStore.constructor` | in_memory_player_store.go:16 | the store holds an empty map and an empty history |
| `InMemoryStore.InMemoryPlayerStore.GetPlayerScore` | in_memory_player_store.go:7-9 | returns the map's entry or 0 for an absent name; that value is the number of wins recorded for the name, is non-negative, and is 0 exactly when the name is absent; the store is not changed |
| `InMemoryStore.InMemoryPlayerStore.RecordWin` | in_memory_player_store.go:11-13 | the map is the old map with the name incremented (created at 1), the name's score rises by 1, every other score is unchanged, and the history gains the name |
| `InMemoryStore.NewInMemoryPlayerStore` | in_memory_player_store.go:15-17 | returns a fresh store with an empty map in which every name scores 0 |
| `Names.LessIrreflexive` | server_test.go:136-138 | no name sorts before itself under Go's string `<` |
| `Names.LessAsymmetric` | server_test.go:136-138 | two names are never each before the other |
| `Names.LessTransitive` | server_test.go:136-138 | Go's string `<` is transitive |
| `Names.LessTotal` | server_test.go:136-138 | of two different names one sorts before the other |
| `Names.LessOrEqualAntisymmetric` | server_test.go:136-141 | names that sort no later than each other are equal |
| `Names.LessOrEqualTransitive` | server_test.go:136-141 | the non-strict name order is transitive |
| `League.LeagueSize` | server_test.go:26-32 | a league of a score map has exactly as many entries as the map has keys |
| `League.LeaguesArePermutations` | server_test.go:28-30 | two leagues of the same map contain the same entries, differing at most in order |
| `League.SortedUnique` | server_test.go:135-145 | two name-sorted lists with distinct names and the same entries are equal |
| `ServerTest.StubPlayerStore.constructor` | server_test.go:13-16 | the stub holds exactly the seeded map and call log |
| `ServerTest.StubPlayerStore.GetPlayerScore` | server_test.go:18-20 | returns the seeded score of a present name and 0 for an absent one, changing nothing |
| `ServerTest.StubPlayerStore.RecordWin` | server_test.go:22-24 | appends exactly the name to the end of the call log, keeps earlier entries, and leaves the scores unchanged |
| `ServerTest.StubPlayerStore.GetLeagueTable` | server_test.go:26-32 | returns one Player per key with that key's score, no duplicate names, no name absent from the map, as many entries as keys, in an unspecified order; nothing changes |
| `ServerTest.SortByName` | server_test.go:136-141 | the array ends sorted by name and is a permutation of its old contents |
| `ServerTest.InsertIntoSorted` | server_test.go:136-138 | inserting the next element extends the sorted prefix by one and keeps the array a permutation |
| `ServerTest.PermutationKeepsDistinctNames` | server_test.go:135-145 | reordering a list with distinct names keeps the names distinct |
| `ServerTest.AssertPlayers` | server_test.go:135-145 | both arrays end sorted by name and permuted; the verdict is element-wise equality of the sorted arrays, which for lists with distinct names holds exactly when they hold the same entries |
| `ServerTest.GetPlayersScenario` | server_test.go:34-66 | a stub seeded with Pepper 20 and Floyd 10 reads 20, 10 and 0 for Apollo |
| `ServerTest.StoreWinsScenario` | server_test.go:68-89 | one recorded win for Pepper on an empty log leaves the log `["Pepper"]` |
| `ServerTest.ExpectedLeague` | server_test.go:102-113 | the expected list of the league test is a league of the seeded map |
| `ServerTest.LeagueScenario` | server_test.go:91-120 | the league of the stub seeded with Vineeth 10, Ajay 20 and Zara 30 compares equal to the expected list after sorting |
| `IntegrationTest.RecordingWinsAndRetrievingThem` | server_integration_test.go:11-24 | three recorded wins for Pepper on an empty production store give a score of 3 |

## Left out

- HTTP routing and response formatting (`NewPlayerServer`, `ServeHTTP`, the 200/202/404 status codes, the `application/json` content type): the server's source is not part of this model, so the scenarios call the stores directly.
- JSON encoding and decoding of the league: the league scenario compares the stub's list itself rather than a decoded copy of it.
- The league part of the integration test (server_integration_test.go:26-32): the production store has no `GetLeagueTable` in the modelled source.
- Request construction (`newGetScoreRequest`, `newPostWinRequest`, `newGetLeagueRequest`) and the `t.Run`/`t.Errorf` test scaffolding: library calls and I/O.
- Go `int` overflow: Go's `int` is 32 or 64 bits depending on the platform, and one increment past `math.MaxInt` (the 2^31-th or 2^63-th win for one name) wraps the score to a negative value; the model's scores are unbounded integers and never wrap.
- Player names that are not valid UTF-8: Go strings are arbitrary byte sequences (a path such as `/players/%FF` yields one), still usable as map keys and ordered byte by byte by `<`; the model's names are Dafny strings of Unicode scalar values, so such names, and their byte-wise order, are not represented.
- Concurrency: the map has no locking, and racing `RecordWin` calls are outside a sequential model.
- `reflect.DeepEqual` distinguishes a nil slice from an empty one; the model compares contents only.
- ServerTest.SortByName: does not state stability (the relative order of equal names), which `sort.SliceStable` promises; the insertion sort is stable, and for the lists with distinct names that `assertPlayers` compares the sorted result is unique anyway (`League.SortedUnique`).
- ServerTest.StubPlayerStore.GetLeagueTable: lists every seeded entry, including ones with zero or negative wins, as the stub's code does; a description of the store contract that lists only players with non-zero wins is not followed here.
