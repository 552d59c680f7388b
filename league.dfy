/**
 League tables: the `Player{Name, Wins}` records a store lists, what it means
 for a list to be the league of a score map, and the name order the tests
 sort leagues by before comparing them.
 */
module League {
  import opened Names

  /** One league entry, as the JSON object `{"Name": ..., "Wins": ...}`. */
  datatype Player = Player(Name: string, Wins: int)

  /** The names a list of players mentions. */
  function NamesOf(players: seq<Player>): set<string>
  {
    set player | player in players :: player.Name
  }

  /** No name appears twice. */
  predicate DistinctNames(players: seq<Player>)
  {
    forall i, j :: 0 <= i < j < |players| ==> players[i].Name != players[j].Name
  }

  /** The list is in ascending Go string order of names. */
  predicate SortedByName(players: seq<Player>)
  {
    forall i, j :: 0 <= i < j < |players| ==> LessOrEqual(players[i].Name, players[j].Name)
  }

  /**
   The list is a league of the score map in some order: one entry per key,
   each carrying that key's score, and nothing else.
   */
  ghost predicate IsLeagueOf(players: seq<Player>, scores: map<string, int>)
  {
    IsPartialLeagueOf(players, scores, scores.Keys)
  }

  /** The list is a league of the part of the score map whose keys are `listed`. */
  ghost predicate IsPartialLeagueOf(players: seq<Player>, scores: map<string, int>, listed: set<string>)
  {
    && DistinctNames(players)
    && NamesOf(players) == listed
    && forall player :: player in players ==> player.Name in scores && player.Wins == scores[player.Name]
  }

  /** Appending the entry of a key not yet listed extends a partial league by that key. */
  lemma PartialLeagueAppend(players: seq<Player>, scores: map<string, int>, listed: set<string>, name: string)
    requires IsPartialLeagueOf(players, scores, listed)
    requires name in scores && name !in listed
    ensures IsPartialLeagueOf(players + [Player(name, scores[name])], scores, listed + {name})
  {
    var players' := players + [Player(name, scores[name])];
    forall i | 0 <= i < |players| ensures players[i].Name != name {
      assert players[i].Name in NamesOf(players);
    }
    assert NamesOf(players') == NamesOf(players) + {name};
  }

  /** A list with distinct names mentions exactly as many names as it has entries. */
  lemma {:induction false} DistinctNamesCount(players: seq<Player>)
    requires DistinctNames(players)
    ensures |NamesOf(players)| == |players|
  {
    if players != [] {
      var init, last := players[..|players| - 1], players[|players| - 1];
      assert players == init + [last];
      assert NamesOf(players) == NamesOf(init) + {last.Name};
      assert last.Name !in NamesOf(init);
      DistinctNamesCount(init);
    }
  }

  /** A league has exactly one entry per key of its score map. */
  lemma LeagueSize(players: seq<Player>, scores: map<string, int>)
    requires IsLeagueOf(players, scores)
    ensures |players| == |scores|
  {
    DistinctNamesCount(players);
  }

  /** In a list with distinct names every entry occurs exactly once. */
  lemma {:induction false} DistinctNamesOccurOnce(players: seq<Player>, player: Player)
    requires DistinctNames(players)
    ensures multiset(players)[player] == if player in players then 1 else 0
  {
    if players != [] {
      var init, last := players[..|players| - 1], players[|players| - 1];
      assert players == init + [last];
      DistinctNamesOccurOnce(init, player);
      assert last !in init;
    }
  }

  /** Two leagues of the same score map differ at most in their order. */
  lemma LeaguesArePermutations(players: seq<Player>, players': seq<Player>, scores: map<string, int>)
    requires IsLeagueOf(players, scores) && IsLeagueOf(players', scores)
    ensures multiset(players) == multiset(players')
  {
    forall player ensures player in players <==> player in players' {
      if player in players {
        assert player.Name in NamesOf(players');
        var other :| other in players' && other.Name == player.Name;
      }
      if player in players' {
        assert player.Name in NamesOf(players);
        var other :| other in players && other.Name == player.Name;
      }
    }
    forall player ensures multiset(players)[player] == multiset(players')[player] {
      DistinctNamesOccurOnce(players, player);
      DistinctNamesOccurOnce(players', player);
    }
  }

  /**
   Sorting by name fixes the order of a list with distinct names: two such
   sorted lists with the same entries are equal.
   */
  lemma {:induction false} SortedUnique(players: seq<Player>, players': seq<Player>)
    requires SortedByName(players) && SortedByName(players')
    requires DistinctNames(players) && DistinctNames(players')
    requires multiset(players) == multiset(players')
    ensures players == players'
  {
    if players == [] {
      assert |multiset(players')| == 0;
    } else {
      assert players'[0] in multiset(players');
      SortedHeadsAgree(players, players');
      var rest, rest' := players[1..], players'[1..];
      assert players == [players[0]] + rest;
      assert players' == [players'[0]] + rest';
      assert multiset(rest) == multiset(players) - multiset{players[0]};
      assert multiset(rest') == multiset(players') - multiset{players'[0]};
      SortedUnique(rest, rest');
    }
  }

  /** Two sorted lists with distinct names and the same entries start with the same entry. */
  lemma SortedHeadsAgree(players: seq<Player>, players': seq<Player>)
    requires |players| > 0 && |players'| > 0
    requires SortedByName(players) && SortedByName(players')
    requires DistinctNames(players')
    requires multiset(players) == multiset(players')
    ensures players[0] == players'[0]
  {
    var first, first' := players[0], players'[0];
    assert first in multiset(players');
    assert first' in multiset(players);
    var j :| 0 <= j < |players'| && players'[j] == first;
    var i :| 0 <= i < |players| && players[i] == first';
    LessIrreflexive(first.Name);
    LessIrreflexive(first'.Name);
    assert LessOrEqual(first.Name, first'.Name);
    assert LessOrEqual(first'.Name, first.Name);
    LessOrEqualAntisymmetric(first.Name, first'.Name);
  }
}
