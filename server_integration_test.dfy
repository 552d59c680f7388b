/**
 The integration scenario against the production store: three wins recorded
 for one player on a fresh store give that player a score of 3.
 */
module IntegrationTest {
  import opened Scores
  import opened InMemoryStore

  /** Three recorded wins for Pepper, then a score read for Pepper. */
  method RecordingWinsAndRetrievingThem() returns (score: int)
    ensures score == 3
  {
    var store := new InMemoryPlayerStore();
    var player := "Pepper";
    store.RecordWin(player);
    store.RecordWin(player);
    store.RecordWin(player);
    score := store.GetPlayerScore(player);
    RepeatedWins(player, 3);
    assert store.history == seq(3, _ => player);
  }
}
