/**
 The score table shared by both player stores: a map from player name to win
 count, read with Go's map semantics (an absent key reads as the zero value)
 and updated by incrementing one entry in place.
 */
module Scores {

  /** A name's score as `scores[name]` reads it in Go: 0 when the name is absent. */
  function Score(scores: map<string, int>, name: string): int
  {
    if name in scores then scores[name] else 0
  }

  /** The table after `scores[name]++`: the entry is created at 1 when absent. */
  function Bump(scores: map<string, int>, name: string): map<string, int>
  {
    scores[name := Score(scores, name) + 1]
  }

  /** The table after the calls `RecordWin(calls[0])`, ..., `RecordWin(calls[|calls| - 1])`, in that order. */
  function Replay(scores: map<string, int>, calls: seq<string>): map<string, int>
  {
    if calls == [] then scores else Bump(Replay(scores, calls[..|calls| - 1]), calls[|calls| - 1])
  }

  /** Every stored entry counts at least one win. */
  ghost predicate AllPositive(scores: map<string, int>)
  {
    forall name :: name in scores ==> scores[name] >= 1
  }

  /** One increment raises its own name by exactly one and leaves every other name alone. */
  lemma BumpScore(scores: map<string, int>, name: string, other: string)
    ensures Score(Bump(scores, name), other) == Score(scores, other) + (if other == name then 1 else 0)
    ensures Bump(scores, name).Keys == scores.Keys + {name}
  {
  }

  /** Increments of two names commute. */
  lemma BumpCommutes(scores: map<string, int>, a: string, b: string)
    ensures Bump(Bump(scores, a), b) == Bump(Bump(scores, b), a)
  {
  }

  /** After a run of calls, a name's score has grown by the number of calls that named it. */
  lemma {:induction false} ReplayScore(scores: map<string, int>, calls: seq<string>, name: string)
    ensures Score(Replay(scores, calls), name) == Score(scores, name) + multiset(calls)[name]
  {
    if calls != [] {
      var init, last := calls[..|calls| - 1], calls[|calls| - 1];
      assert calls == init + [last];
      ReplayScore(scores, init, name);
      BumpScore(Replay(scores, init), last, name);
    }
  }

  /** A run of calls adds exactly the names it mentions to the table. */
  lemma {:induction false} ReplayKeys(scores: map<string, int>, calls: seq<string>)
    ensures Replay(scores, calls).Keys == scores.Keys + set name | name in calls
  {
    if calls != [] {
      var init, last := calls[..|calls| - 1], calls[|calls| - 1];
      assert calls == init + [last];
      ReplayKeys(scores, init);
      BumpScore(Replay(scores, init), last, last);
    }
  }

  /**
   The final table depends only on how many calls named each player, not on
   the order of the calls: two runs with the same multiset of names agree.
   */
  lemma ReplayOrderIndependent(scores: map<string, int>, calls: seq<string>, calls': seq<string>)
    requires multiset(calls) == multiset(calls')
    ensures Replay(scores, calls) == Replay(scores, calls')
  {
    var left, right := Replay(scores, calls), Replay(scores, calls');
    ReplayKeys(scores, calls);
    ReplayKeys(scores, calls');
    assert (set name | name in calls) == (set name | name in calls') by {
      forall name ensures name in calls <==> name in calls' {
        assert name in calls <==> name in multiset(calls);
        assert name in calls' <==> name in multiset(calls');
      }
    }
    forall name | name in left ensures left[name] == right[name] {
      ReplayScore(scores, calls, name);
      ReplayScore(scores, calls', name);
    }
  }

  /** Starting from the empty table, k calls naming a player give that player a score of k. */
  lemma RepeatedWins(name: string, k: nat)
    ensures Score(Replay(map[], seq(k, _ => name)), name) == k
  {
    ReplayScore(map[], seq(k, _ => name), name);
    RepeatCount(name, k);
  }

  lemma {:induction false} RepeatCount(name: string, k: nat)
    ensures multiset(seq(k, _ => name))[name] == k
  {
    if k > 0 {
      assert seq(k, _ => name) == seq(k - 1, _ => name) + [name];
      RepeatCount(name, k - 1);
    }
  }

  /** Starting from a table whose entries are all positive, the increments keep every entry positive. */
  lemma {:induction false} ReplayKeepsPositive(scores: map<string, int>, calls: seq<string>)
    requires AllPositive(scores)
    ensures AllPositive(Replay(scores, calls))
  {
    if calls != [] {
      ReplayKeepsPositive(scores, calls[..|calls| - 1]);
    }
  }
}
