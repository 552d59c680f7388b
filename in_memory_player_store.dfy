/**
 The production player store: a score map held in a struct field and
 incremented in place by every recorded win.
 */
module InMemoryStore {
  import opened Scores

  class InMemoryPlayerStore {
    var scores: map<string, int>
    /** The names passed to RecordWin since the store was built, oldest first. */
    ghost var history: seq<string>

    /** The map is exactly what the recorded wins produce from the empty map. */
    ghost predicate Valid()
      reads this
    {
      scores == Replay(map[], history)
    }

    /** The empty store, as the struct literal with an empty map builds it. */
    constructor ()
      ensures Valid()
      ensures scores == map[] && history == []
    {
      scores := map[];
      history := [];
    }

    /**
     Reads a name's score; a name with no recorded win reads as 0, and in this
     store a score of 0 means exactly that no win was recorded for the name.
     */
    method GetPlayerScore(name: string) returns (score: int)
      requires Valid()
      ensures score == Score(scores, name)
      ensures score == multiset(history)[name]
      ensures score >= 0
      ensures score == 0 <==> name !in scores
    {
      if name in scores {
        score := scores[name];
      } else {
        score := 0;
      }
      ReplayScore(map[], history, name);
      ReplayKeepsPositive(map[], history);
    }

    /** Increments a name's score in place, creating the entry at 1 when absent. */
    method RecordWin(name: string)
      requires Valid()
      modifies this
      ensures Valid()
      ensures history == old(history) + [name]
      ensures scores == Bump(old(scores), name)
      ensures Score(scores, name) == Score(old(scores), name) + 1
      ensures forall other :: other != name ==> Score(scores, other) == Score(old(scores), other)
    {
      scores := scores[name := Score(scores, name) + 1];
      history := history + [name];
      assert history[..|history| - 1] == old(history);
      forall other ensures Score(scores, other) == Score(old(scores), other) + (if other == name then 1 else 0) {
        BumpScore(old(scores), name, other);
      }
    }
  }

  /** A fresh, empty store: every name scores 0. */
  method NewInMemoryPlayerStore() returns (store: InMemoryPlayerStore)
    ensures fresh(store) && store.Valid()
    ensures store.scores == map[] && store.history == []
    ensures forall name :: Score(store.scores, name) == 0
  {
    store := new InMemoryPlayerStore();
  }
}
