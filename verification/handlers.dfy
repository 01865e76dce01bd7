/**
 The guard logic of the four command handlers of `GameTrackerGUI` in
 src/Main.java, with the Swing state turned into explicit inputs:

 - an input dialog's answer is an `Option<string>` (None is a cancelled
   dialog, which Java reports as null);
 - a list selection is an `Option<nat>` position (None is no selection);
 - a yes/no confirmation is a `bool` (true is `YES_OPTION`).

 Each handler returns the new tracker and the kind of feedback the window
 gives, in place of the status-bar text and message dialogs.
 */
module Handlers {
  import opened Options
  import opened JavaText
  import opened Tracker

  /** The feedback a command ends with. */
  datatype Outcome =
    | GameAdded            // status bar: game added
    | GameRemoved          // status bar: game removed
    | AchievementAdded     // status bar: achievement added
    | AchievementMarked    // status bar: achievement marked completed
    | Cancelled            // the input dialog was dismissed: no feedback
    | Declined             // the removal was not confirmed: no feedback
    | EmptyName            // error dialog: the name is empty
    | NoSelection          // warning dialog: nothing is selected
    | AlreadyCompleted     // information dialog: already marked

  datatype Response = Response(tracker: GameTracker, outcome: Outcome)

  /** True when the command changed nothing and said why. */
  predicate Rejected(r: Response, t: GameTracker) {
    r.tracker == t && r.outcome in {Cancelled, Declined, EmptyName, NoSelection, AlreadyCompleted}
  }

  /** A selected position is one of the list's rows. */
  predicate ValidSelection(sel: Option<nat>, n: nat) {
    sel.Some? ==> sel.value < n
  }

  /** Startup: a tracker that could not be loaded is replaced by an empty one.
      Deserialization keeps object identity, so a tracker saved without
      repeated games is loaded without them. */
  function InitialTracker(loaded: Option<GameTracker>): (t: GameTracker)
    ensures loaded.None? ==> t == EmptyTracker()
    ensures loaded.Some? ==> t == loaded.value
    ensures loaded.None? ==> WellFormed(t)
    ensures loaded.Some? && WellFormed(loaded.value) ==> WellFormed(t)
  {
    loaded.GetOr(EmptyTracker())
  }

  /** `GameTrackerGUI.addGame`. */
  function AddGameCommand(t: GameTracker, answer: Option<string>): (r: Response)
    ensures answer.None? ==> r == Response(t, Cancelled)
    ensures answer.Some? && AllTrimmable(answer.value) ==> r == Response(t, EmptyName)
    ensures answer.Some? && !AllTrimmable(answer.value) ==>
      && r.outcome == GameAdded
      && |r.tracker.games| == |t.games| + 1
      && r.tracker.games[..|t.games|] == t.games
      && r.tracker.games[|t.games|].name == Trim(answer.value)
      && r.tracker.games[|t.games|].achievements == []
      && !HasRef(t.games, r.tracker.games[|t.games|].ref)
    ensures WellFormed(t) ==> WellFormed(r.tracker)
  {
    match answer
    case None => Response(t, Cancelled)
    case Some(text) =>
      var name := Trim(text);
      if name == [] then Response(t, EmptyName)
      else Response(AddGame(t, NewGame(FreshRef(t), name)), GameAdded)
  }

  /** `GameTrackerGUI.removeGame`. */
  function RemoveGameCommand(t: GameTracker, selected: Option<nat>, confirmed: bool): (r: Response)
    requires ValidSelection(selected, |t.games|)
    ensures selected.None? ==> r == Response(t, NoSelection)
    ensures selected.Some? && !confirmed ==> r == Response(t, Declined)
    ensures selected.Some? && confirmed ==>
      r.tracker == RemoveGame(t, t.games[selected.value].ref)
    ensures selected.Some? && confirmed && WellFormed(t) ==>
      && r.outcome == GameRemoved
      && r.tracker.games == t.games[..selected.value] + t.games[selected.value + 1..]
    ensures WellFormed(t) ==> WellFormed(r.tracker)
  {
    match selected
    case None => Response(t, NoSelection)
    case Some(i) =>
      if !confirmed then Response(t, Declined)
      else
        RemoveGameAt(t, i);
        Response(RemoveGame(t, t.games[i].ref), GameRemoved)
  }

  /** `GameTrackerGUI.addAchievement`. The dialog is only shown once a game
      is selected, so without a selection its answer plays no part. */
  function AddAchievementCommand(t: GameTracker, selected: Option<nat>, answer: Option<string>): (r: Response)
    requires ValidSelection(selected, |t.games|)
    ensures selected.None? ==> r == Response(t, NoSelection)
    ensures selected.Some? && answer.None? ==> r == Response(t, Cancelled)
    ensures selected.Some? && answer.Some? && AllTrimmable(answer.value) ==> r == Response(t, EmptyName)
    ensures selected.Some? && answer.Some? && !AllTrimmable(answer.value) ==>
      var i := selected.value;
      var n := |t.games[i].achievements|;
      && r.outcome == AchievementAdded
      && |r.tracker.games| == |t.games|
      && (forall k :: 0 <= k < |t.games| && k != i ==> r.tracker.games[k] == t.games[k])
      && r.tracker.games[i].ref == t.games[i].ref
      && r.tracker.games[i].name == t.games[i].name
      && |r.tracker.games[i].achievements| == n + 1
      && r.tracker.games[i].achievements[..n] == t.games[i].achievements
      && r.tracker.games[i].achievements[n] == Achievement(Trim(answer.value), false)
      && CompletedAchievements(r.tracker.games[i]) == CompletedAchievements(t.games[i])
    ensures WellFormed(t) ==> WellFormed(r.tracker)
  {
    match selected
    case None => Response(t, NoSelection)
    case Some(i) =>
      match answer
      case None => Response(t, Cancelled)
      case Some(text) =>
        var name := Trim(text);
        if name == [] then Response(t, EmptyName)
        else Response(UpdateGame(t, i, AddAchievement(t.games[i], NewAchievement(name))), AchievementAdded)
  }

  /** The achievement list shows the achievements of the selected game, so
      a selected achievement is a position in that game's list. */
  predicate ValidMarkSelection(t: GameTracker, game: Option<nat>, achievement: Option<nat>) {
    && ValidSelection(game, |t.games|)
    && (game.Some? && achievement.Some? ==> achievement.value < |t.games[game.value].achievements|)
  }

  /** `GameTrackerGUI.markAchievement`. */
  function MarkAchievementCommand(t: GameTracker, game: Option<nat>, achievement: Option<nat>): (r: Response)
    requires ValidMarkSelection(t, game, achievement)
    ensures game.None? || achievement.None? ==> r == Response(t, NoSelection)
    ensures game.Some? && achievement.Some? ==>
      var i, j := game.value, achievement.value;
      if t.games[i].achievements[j].completed then r == Response(t, AlreadyCompleted)
      else
        && r.outcome == AchievementMarked
        && |r.tracker.games| == |t.games|
        && (forall k :: 0 <= k < |t.games| && k != i ==> r.tracker.games[k] == t.games[k])
        && r.tracker.games[i].ref == t.games[i].ref
        && r.tracker.games[i].name == t.games[i].name
        && |r.tracker.games[i].achievements| == |t.games[i].achievements|
        && r.tracker.games[i].achievements[j] == Achievement(t.games[i].achievements[j].name, true)
        && (forall m :: 0 <= m < |t.games[i].achievements| && m != j ==>
              r.tracker.games[i].achievements[m] == t.games[i].achievements[m])
        && CompletedAchievements(r.tracker.games[i]) == CompletedAchievements(t.games[i]) + 1
    ensures WellFormed(t) ==> WellFormed(r.tracker)
  {
    if game.None? || achievement.None? then Response(t, NoSelection)
    else
      var i, j := game.value, achievement.value;
      if t.games[i].achievements[j].completed then Response(t, AlreadyCompleted)
      else Response(UpdateGame(t, i, SetAchievementCompleted(t.games[i], j)), AchievementMarked)
  }

  /** Marking the same achievement twice in a row: the second command is
      rejected and leaves the state of the first, so nothing is counted twice. */
  lemma MarkAchievementTwice(t: GameTracker, i: nat, j: nat)
    requires ValidMarkSelection(t, Some(i), Some(j))
    ensures var first := MarkAchievementCommand(t, Some(i), Some(j));
            && ValidMarkSelection(first.tracker, Some(i), Some(j))
            && MarkAchievementCommand(first.tracker, Some(i), Some(j)) == Response(first.tracker, AlreadyCompleted)
            && CompletedAchievements(first.tracker.games[i]) <= TotalAchievements(first.tracker.games[i])
  {
  }

  /** Every command either changes the tracker and reports success, or
      leaves it exactly as it was. */
  lemma CommandsChangeOnlyOnSuccess(t: GameTracker, sel: Option<nat>, ach: Option<nat>,
                                    answer: Option<string>, confirmed: bool)
    requires ValidMarkSelection(t, sel, ach)
    ensures var r := AddGameCommand(t, answer);
            r.outcome != GameAdded ==> Rejected(r, t)
    ensures var r := RemoveGameCommand(t, sel, confirmed);
            r.outcome != GameRemoved ==> Rejected(r, t)
    ensures var r := AddAchievementCommand(t, sel, answer);
            r.outcome != AchievementAdded ==> Rejected(r, t)
    ensures var r := MarkAchievementCommand(t, sel, ach);
            r.outcome != AchievementMarked ==> Rejected(r, t)
  {
  }
}
