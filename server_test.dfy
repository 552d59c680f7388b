/**
 The test double for the player store and the test helper that compares
 league tables without regard to order, with the scenarios the HTTP tests
 drive through them (the HTTP layer itself is not part of this model).
 */
module ServerTest {
  import opened Scores
  import opened Names
  import opened League

  /** A store seeded with a fixed score map that logs RecordWin calls instead of counting them. */
  class StubPlayerStore {
    var scores: map<string, int>
    var winCalls: seq<string>

    /** The struct literal `StubPlayerStore{scores, winCalls}`. */
    constructor (scores: map<string, int>, winCalls: seq<string>)
      ensures this.scores == scores && this.winCalls == winCalls
    {
      this.scores := scores;
      this.winCalls := winCalls;
    }

    /** The seeded score of a present name, 0 for an absent one; nothing changes. */
    method GetPlayerScore(name: string) returns (score: int)
      ensures name in scores ==> score == scores[name]
      ensures name !in scores ==> score == 0
    {
      score := Score(scores, name);
    }

    /** Appends the name to the call log; the seeded scores stay as they are. */
    method RecordWin(name: string)
      modifies this`winCalls
      ensures winCalls == old(winCalls) + [name]
      ensures scores == old(scores)
    {
      winCalls := winCalls + [name];
    }

    /**
     Lists every seeded entry once, as a Player. The keys are taken in an
     unspecified order, as Go's map iteration takes them.
     */
    method GetLeagueTable() returns (players: seq<Player>)
      ensures IsLeagueOf(players, scores)
      ensures |players| == |scores|
    {
      players := [];
      var remaining := scores.Keys;
      while remaining != {}
        invariant remaining <= scores.Keys
        invariant IsPartialLeagueOf(players, scores, scores.Keys - remaining)
        decreases remaining
      {
        var name :| name in remaining;
        PartialLeagueAppend(players, scores, scores.Keys - remaining, name);
        players := players + [Player(name, scores[name])];
        assert scores.Keys - remaining + {name} == scores.Keys - (remaining - {name});
        remaining := remaining - {name};
      }
      LeagueSize(players, scores);
    }
  }

  /** Sorts the players by name in place, by insertion, which like a stable sort never reorders equal names. */
  method SortByName(a: array<Player>)
    modifies a
    ensures SortedByName(a[..])
    ensures multiset(a[..]) == multiset(old(a[..]))
  {
    var i := 0;
    while i < a.Length
      invariant 0 <= i <= a.Length
      invariant SortedByName(a[..i])
      invariant multiset(a[..]) == multiset(old(a[..]))
    {
      InsertIntoSorted(a, i);
      i := i + 1;
    }
    assert a[..] == a[..a.Length];
  }

  /** Moves `a[i]` down past every larger name, extending the sorted prefix by one. */
  method InsertIntoSorted(a: array<Player>, i: nat)
    requires i < a.Length
    requires SortedByName(a[..i])
    modifies a
    ensures SortedByName(a[..i + 1])
    ensures multiset(a[..]) == multiset(old(a[..]))
  {
    var j := i;
    while j > 0 && Less(a[j].Name, a[j - 1].Name)
      invariant 0 <= j <= i
      invariant forall x, y :: 0 <= x < y <= i && y != j ==> LessOrEqual(a[x].Name, a[y].Name)
      invariant multiset(a[..]) == multiset(old(a[..]))
    {
      LessAsymmetric(a[j].Name, a[j - 1].Name);
      SwapAdjacent(a, j);
      j := j - 1;
    }
    if j > 0 {
      forall x | 0 <= x < j ensures LessOrEqual(a[x].Name, a[j].Name) {
        if x < j - 1 {
          LessOrEqualTransitive(a[x].Name, a[j - 1].Name, a[j].Name);
        }
      }
    }
  }

  /** Exchanges `a[j - 1]` and `a[j]`. */
  method SwapAdjacent(a: array<Player>, j: nat)
    requires 0 < j < a.Length
    modifies a
    ensures a[j - 1] == old(a[j]) && a[j] == old(a[j - 1])
    ensures forall k :: 0 <= k < a.Length && k != j - 1 && k != j ==> a[k] == old(a[k])
    ensures multiset(a[..]) == multiset(old(a[..]))
  {
    a[j - 1], a[j] := a[j], a[j - 1];
  }

  /** A reordering of a list with distinct names still has distinct names. */
  lemma PermutationKeepsDistinctNames(players: seq<Player>, players': seq<Player>)
    requires DistinctNames(players)
    requires multiset(players) == multiset(players')
    ensures DistinctNames(players')
  {
    forall i, j | 0 <= i < j < |players'| ensures players'[i].Name != players'[j].Name {
      if players'[i].Name == players'[j].Name {
        assert players'[i] in multiset(players) && players'[j] in multiset(players);
        var x :| 0 <= x < |players| && players[x] == players'[i];
        var y :| 0 <= y < |players| && players[y] == players'[j];
        assert x == y;
        DistinctNamesOccurOnce(players, players'[i]);
        RepeatedEntryCount(players', i, j);
        assert false;
      }
    }
  }

  lemma RepeatedEntryCount(players: seq<Player>, i: nat, j: nat)
    requires i < j < |players| && players[i] == players[j]
    ensures multiset(players)[players[i]] >= 2
  {
    assert players == players[..i] + [players[i]] + players[i + 1..j] + [players[j]] + players[j + 1..];
  }

  /**
   Sorts both lists by name and compares them element by element. For league
   tables (distinct names) they compare equal exactly when they hold the same
   entries, in whatever order.
   */
  method AssertPlayers(got: array<Player>, want: array<Player>) returns (equal: bool)
    modifies got, want
    ensures SortedByName(got[..]) && multiset(got[..]) == multiset(old(got[..]))
    ensures SortedByName(want[..]) && multiset(want[..]) == multiset(old(want[..]))
    ensures equal <==> got[..] == want[..]
    ensures DistinctNames(old(got[..])) && DistinctNames(old(want[..])) ==>
              (equal <==> multiset(old(got[..])) == multiset(old(want[..])))
  {
    SortByName(got);
    SortByName(want);
    equal := got[..] == want[..];
    if DistinctNames(old(got[..])) && DistinctNames(old(want[..])) {
      PermutationKeepsDistinctNames(old(got[..]), got[..]);
      PermutationKeepsDistinctNames(old(want[..]), want[..]);
      if multiset(old(got[..])) == multiset(old(want[..])) {
        SortedUnique(got[..], want[..]);
      }
    }
  }

  /** GET scores from a store seeded with Pepper at 20 and Floyd at 10; Apollo is unknown. */
  method GetPlayersScenario() returns (pepper: int, floyd: int, apollo: int)
    ensures pepper == 20 && floyd == 10 && apollo == 0
  {
    var store := new StubPlayerStore(map["Pepper" := 20, "Floyd" := 10], []);
    pepper := store.GetPlayerScore("Pepper");
    floyd := store.GetPlayerScore("Floyd");
    apollo := store.GetPlayerScore("Apollo");
  }

  /** One POST for Pepper on an empty store leaves exactly one logged call. */
  method StoreWinsScenario() returns (calls: seq<string>)
    ensures calls == ["Pepper"]
  {
    var store := new StubPlayerStore(map[], []);
    store.RecordWin("Pepper");
    calls := store.winCalls;
  }

  lemma ExpectedLeague(expected: seq<Player>, scores: map<string, int>)
    requires expected == [Player("Vineeth", 10), Player("Ajay", 20), Player("Zara", 30)]
    requires scores == map["Vineeth" := 10, "Ajay" := 20, "Zara" := 30]
    ensures IsLeagueOf(expected, scores)
  {
  }

  /** The league of a store seeded with three players matches the expected list in any order. */
  method LeagueScenario() returns (equal: bool)
    ensures equal
  {
    var scores := map["Vineeth" := 10, "Ajay" := 20, "Zara" := 30];
    var store := new StubPlayerStore(scores, []);
    var league := store.GetLeagueTable();
    var expected := [Player("Vineeth", 10), Player("Ajay", 20), Player("Zara", 30)];
    ExpectedLeague(expected, scores);
    LeaguesArePermutations(league, expected, scores);
    var got := new Player[|league|](i requires 0 <= i < |league| => league[i]);
    var want := new Player[|expected|](i requires 0 <= i < |expected| => expected[i]);
    assert got[..] == league && want[..] == expected;
    equal := AssertPlayers(got, want);
  }
}
