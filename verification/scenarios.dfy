/** Whole sessions of commands, followed from an empty tracker. */
module Scenarios {
  import opened Options
  import opened JavaText
  import opened Tracker
  import opened Display
  import opened Handlers

  const Celeste: string := "Celeste"
  const Chapter1: string := "Beat Chapter 1"

  /** Step 1: the first game gets identity 1 and no achievements. */
  lemma CelesteAdded()
    ensures AddGameCommand(EmptyTracker(), Some(Celeste)).tracker == GameTracker([Game(1, Celeste, [])])
  {
    TrimKeepsTrimmed(Celeste);
  }

  /** Step 2: the achievement is appended, still pending. */
  lemma Chapter1Added()
    ensures AddAchievementCommand(GameTracker([Game(1, Celeste, [])]), Some(0), Some(Chapter1)).tracker
            == GameTracker([Game(1, Celeste, [Achievement(Chapter1, false)])])
  {
    TrimKeepsTrimmed(Chapter1);
  }

  /** Step 3: marking flips that achievement's flag. */
  lemma Chapter1Marked()
    ensures MarkAchievementCommand(GameTracker([Game(1, Celeste, [Achievement(Chapter1, false)])]), Some(0), Some(0)).tracker
            == GameTracker([CelesteDone])
  {
    assert [Achievement(Chapter1, false)][0 := Achievement(Chapter1, true)] == [Achievement(Chapter1, true)];
  }

  /** The game at the end of the session. */
  const CelesteDone: Game := Game(1, Celeste, [Achievement(Chapter1, true)])

  lemma CelesteDoneCounts()
    ensures CompletedAchievements(CelesteDone) == 1
    ensures TotalAchievements(CelesteDone) == 1
  {
    assert CelesteDone.achievements[..0] == [];
  }

  lemma CelesteGameLabel()
    ensures GameLabel(CelesteDone) == "Celeste - 1/1 Conquistas Concluídas"
  {
    CelesteDoneCounts();
    assert NatToString(1) == "1";
    var r := GameLabel(CelesteDone);
    assert r == Celeste + Separator + "1" + "/" + "1" + CountSuffix;
  }

  lemma Chapter1Label()
    ensures AchievementLabel(Achievement(Chapter1, true)) == "Beat Chapter 1 (Concluída)"
  {
    assert AchievementLabel(Achievement(Chapter1, true)) == Chapter1 + CompletedTag;
  }

  /** Add "Celeste", give it one achievement and mark it: the game's label
      then shows a ratio of 1/1. */
  lemma CelesteSession()
    ensures var t1 := AddGameCommand(EmptyTracker(), Some(Celeste)).tracker;
            var t2 := AddAchievementCommand(t1, Some(0), Some(Chapter1)).tracker;
            var t3 := MarkAchievementCommand(t2, Some(0), Some(0)).tracker;
            && |t3.games| == 1
            && GameLabel(t3.games[0]) == "Celeste - 1/1 Conquistas Concluídas"
            && AchievementLabel(t3.games[0].achievements[0]) == "Beat Chapter 1 (Concluída)"
  {
    CelesteAdded();
    Chapter1Added();
    Chapter1Marked();
    CelesteGameLabel();
    Chapter1Label();
  }

  /** A name of spaces only adds no game. */
  lemma BlankNameSession(t: GameTracker)
    ensures AddGameCommand(t, Some("   ")) == Response(t, EmptyName)
  {
  }
}
