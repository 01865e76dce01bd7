# GameTracker in Dafny

A model of the in-memory core of GameTracker, a Swing desktop application
that keeps a list of video games with a checklist of achievements for each.
The model covers the three data classes of `src/Main.java` (`Achievement`,
`Game`, `GameTracker`), their list labels (`toString`), and the guard logic
that the window's four commands (add game, remove game, add achievement,
mark achievement) put around them.

Everything is immutable values and pure functions:

- `options.dfy`: `Option`, which stands in for a Java reference that may be `null`.
- `java_text.dfy`: `String.trim()` exactly as Java defines it (every character at or
  below U+0020 is stripped from both ends), and the decimal text of an `int`.
- `tracker.dfy`: `Achievement`, `Game`, `GameTracker` and their operations. Java matches
  games by object reference, because `Game` does not override `equals`. So a game carries
  its object identity as an explicit `ref` field. A well-formed tracker (`WellFormed`)
  never holds the same game object twice. A new game gets a `ref` no game in the tracker
  has (`FreshRef`), as `new Game(...)` always yields a fresh object. Changing an object in
  place (`setCompleted`, `addAchievement`) becomes replacing the game at its position.
- `display.dfy`: the labels `name (Concluída)` / `name (Pendente)` and
  `name - completed/total Conquistas Concluídas`, plus readers that recover the parts.
  These readers show that a label loses nothing.
- `handlers.dfy`: the four commands, with the Swing inputs made explicit. An input
  dialog's answer is an `Option<string>` (None = cancelled). A list selection is an
  `Option<nat>` position. A confirmation is a `bool`. Each command returns the new tracker
  and the kind of feedback shown (`Outcome`).
- `scenarios.dfy`: one session followed from an empty tracker (add a game, add an
  achievement, mark it), and one blank-name command on any tracker.

Behaviour of the source worth knowing:

- A name is checked after `trim()`, with Java's definition of what trim strips. This is
  not "whitespace" in general (src/Main.java:267, 301).
- An empty name is reported with an error dialog (src/Main.java:274, 309).
- Marking an already-completed achievement shows an information message and does not
  call `setCompleted` (src/Main.java:322-328).

## Model

| member | source | states |
|---|---|---|
| JavaText.LeadingCount | src/Main.java:267 | the number of leading characters trim strips: all of them are at or below U+0020 and the next one is not |
| JavaText.TrimEnd | src/Main.java:267 | where trim's kept part ends: everything after it is at or below U+0020, and the last kept character is not |
| JavaText.Trim | src/Main.java:266-268 | the trimmed name is the slice of the input between the stripped ends; it is empty exactly when every character is at or below U+0020, and otherwise starts and ends with a kept character |
| JavaText.TrimOfPadded | src/Main.java:301 | trimming any padding of at-or-below-space characters around an already trimmed string gives that string back (trim is determined by its result) |
| JavaText.TrimKeepsTrimmed | src/Main.java:301 | a name with nothing to strip is kept unchanged |
| JavaText.TrimIdempotent | src/Main.java:301 | trimming a trimmed name changes nothing |
| JavaText.NatToString | src/Main.java:74 | the decimal text of a count is non-empty, all digits, and has no leading zero unless the count is 0 |
| JavaText.ParseNatToString | src/Main.java:74 | reading the decimal text of a count gives the count back |
| JavaText.NatToStringInjective | src/Main.java:74 | different counts render as different text |
| Tracker.NewAchievement | src/Main.java:14-17 | a new achievement has the given name and is not completed |
| Tracker.SetCompleted | src/Main.java:27-29 | the setter changes the flag to the given value and keeps the name |
| Tracker.SetCompletedIdempotent | src/Main.java:27-29 | setting the flag twice equals setting it once, and setting it to its current value changes nothing |
| Tracker.NewGame | src/Main.java:43-46 | a new game has the given name and identity, zero achievements and zero completed |
| Tracker.TotalAchievements | src/Main.java:60-62 | a game's total is the number of its completed achievements plus the number still pending |
| Tracker.CompletedPlusPending | src/Main.java:60-70 | every achievement is counted once, as completed or as pending |
| Tracker.CountCompleted | src/Main.java:64-70 | the completed count of a list never exceeds its length |
| Tracker.CompletedAchievements | src/Main.java:64-70 | a game's completed count is at most its total |
| Tracker.CountCompletedIsCardinality | src/Main.java:64-70 | the completed count equals the number of positions whose achievement is completed |
| Tracker.AllCompletedIffCountIsTotal | src/Main.java:60-70 | completed count equals total exactly when every achievement is completed |
| Tracker.CountCompletedAppend | src/Main.java:64-70 | the count of two lists joined is the sum of their counts |
| Tracker.CountCompletedUpdate | src/Main.java:64-70 | replacing one achievement changes the count only by the change of that one flag |
| Tracker.CompletedAchievementsLoop | src/Main.java:64-70 | the counting loop returns the number of completed achievements |
| Tracker.AddAchievement | src/Main.java:56-58 | the achievement is appended at the end, the old list is a prefix of the new one, the total rises by exactly 1, and the completed count rises by the new one's flag |
| Tracker.SetAchievementCompleted | src/Main.java:322-323 | only the chosen achievement's flag becomes true; name, identity and all other achievements stay; the completed count rises by 1 if it was pending and stays if it was completed |
| Tracker.EmptyTracker | src/Main.java:83-85 | a new tracker holds no games |
| Tracker.MaxRef | src/Main.java:269 | no game's identity exceeds the bound it returns |
| Tracker.FreshRef | src/Main.java:269 | the identity of a newly created game differs from that of every game in the tracker |
| Tracker.AddGame | src/Main.java:91-93 | the game is appended at the end and the old list is a prefix; a tracker without repeated games stays so when the new game is fresh |
| Tracker.RemoveFirst | src/Main.java:95-97 | removal by reference is a no-op when no game has that identity, and otherwise removes exactly one game |
| Tracker.RemoveFirstMatch | src/Main.java:95-97 | the game removed is the first one with that identity, and the games before and after it keep their relative order |
| Tracker.RemoveGame | src/Main.java:95-97 | `GameTracker.removeGame` is a no-op for an absent game and otherwise shortens the list by one |
| Tracker.RemoveGameAt | src/Main.java:285-286 | in a tracker without repeated games, removing the game at a position takes out exactly that game, keeps every other game and its achievements in order, and leaves no copy of it |
| Tracker.RemoveAfterAdd | src/Main.java:91-97 | removing a game that was just added restores the tracker as it was |
| Tracker.UpdateGame | src/Main.java:304 | changing one game leaves every other game as it was and keeps the tracker free of repeats |
| Display.AchievementLabel | src/Main.java:31-34 | the label starts with the name; it ends in " (Concluída)" exactly when the achievement is completed and in " (Pendente)" exactly when it is not |
| Display.ParseAchievementLabelInverse | src/Main.java:31-34 | the label determines the achievement: reading it back gives the name and the flag |
| Display.GameLabel | src/Main.java:72-75 | the label starts with the game's name and ends in " Conquistas Concluídas" |
| Display.ParseGameLabelInverse | src/Main.java:72-75 | reading a game label back, right to left, gives the name, the completed count and the total it shows |
| Display.GameLabelInjective | src/Main.java:72-75 | two games with equal labels agree on name, completed count and total |
| Handlers.InitialTracker | src/Main.java:142-145 | when nothing could be loaded the window starts from an empty tracker, and otherwise from the loaded one; both hold no game object twice when the saved one did not |
| Handlers.AddGameCommand | src/Main.java:264-277 | a cancelled dialog or a name that trims to empty leaves the tracker unchanged; otherwise exactly one fresh game is appended, named with the trimmed name and with no achievements; no game is ever repeated |
| Handlers.RemoveGameCommand | src/Main.java:280-293 | with no selection or a declined confirmation the tracker is unchanged; otherwise the selected game, and only it, is removed and the others keep their order |
| Handlers.AddAchievementCommand | src/Main.java:296-315 | with no selection, a cancelled dialog or a name that trims to empty the tracker is unchanged; otherwise one pending achievement with the trimmed name is appended to the selected game and nothing else changes |
| Handlers.MarkAchievementCommand | src/Main.java:318-333 | with no game or achievement selected, or an already completed one, the tracker is unchanged; otherwise only the selected achievement becomes completed, its game's count rises by exactly 1, and every other achievement and game is unchanged |
| Handlers.MarkAchievementTwice | src/Main.java:318-333 | a second mark of the same achievement is refused and changes nothing, so it is never counted twice |
| Handlers.CommandsChangeOnlyOnSuccess | src/Main.java:264-333 | every command either reports success or leaves the tracker exactly as it was |
| Scenarios.CelesteSession | src/Main.java:264-333 | adding "Celeste", adding one achievement to it and marking it makes the game's label read "Celeste - 1/1 Conquistas Concluídas" |
| Scenarios.BlankNameSession | src/Main.java:264-277 | a name of three spaces adds no game and reports an empty name |

## Left out

- Swing and AWT are not modelled: look and feel, layout, menus, cell renderers, repainting,
  `Main.main`. The two list models only copy the tracker's lists, so the tracker's sequences
  stand for them. The achievement list's contents are captured by `ValidMarkSelection`: a
  selected achievement is a position in the selected game's list.
- `saveData` and `loadData` are Java object serialization and file I/O, with no format
  to model. Only the startup fallback is kept: `InitialTracker` starts from an empty
  tracker when nothing was loaded.
- Status-bar texts, message dialogs and printed exceptions are left out. They change no
  state. `Outcome` records only which kind of feedback a command ends with.
- Selections outside the list are excluded by `requires`. A Swing `JList` never reports
  such a selection.
- Counts are unbounded `nat`s. Java's `int` counts cannot wrap, because an `ArrayList`
  never holds more than `Integer.MAX_VALUE` elements.
- Dafny `char` is a Unicode scalar value; Java `char` is a UTF-16 code unit. `trim()`
  only compares characters with U+0020, so the difference does not matter there.
- A loaded tracker is taken to hold distinct game objects (`WellFormed`). Java
  serialization keeps object identity, and the saved graph was built only by `new Game`.
  `InitialTracker` carries `WellFormed` over from the loaded tracker but cannot establish
  it. The deserializer is not part of this model.
- Handlers.RemoveGameCommand: the exact list left after removal is stated only for
  trackers that hold no game object twice. An empty start is such a tracker, and so is a
  loaded one under the assumption above; every command preserves `WellFormed`. Without
  it, the contract says only that the first game sharing the selected game's identity is
  removed.
