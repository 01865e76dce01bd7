/**
 The in-memory data model of the tracker: `Achievement`, `Game` and
 `GameTracker` of src/Main.java, as immutable values.

 Java mutates objects in place and `GameTracker.removeGame` matches a game by
 reference (`Game` does not override `equals`). Here a game carries its
 object identity explicitly as `ref`, and an in-place change to a game
 becomes the replacement of the game at its position.
 */
module Tracker {

  // ----------------------------------------------------------- Achievement

  datatype Achievement = Achievement(name: string, completed: bool)

  /** `new Achievement(name)`: pending until marked. */
  function NewAchievement(name: string): (a: Achievement)
    ensures a.name == name
    ensures !a.completed
  {
    Achievement(name, false)
  }

  /** `Achievement.setCompleted`: changes the flag and nothing else. */
  function SetCompleted(a: Achievement, completed: bool): (r: Achievement)
    ensures r.name == a.name
    ensures r.completed == completed
  {
    a.(completed := completed)
  }

  /** Setting the flag to the value it already has changes nothing, so
      marking an achievement a second time is the same as marking it once. */
  lemma SetCompletedIdempotent(a: Achievement, completed: bool)
    ensures SetCompleted(SetCompleted(a, completed), completed) == SetCompleted(a, completed)
    ensures a.completed == completed ==> SetCompleted(a, completed) == a
  {
  }

  // ------------------------------------------------------------------ Game

  datatype Game = Game(ref: nat, name: string, achievements: seq<Achievement>)

  /** `new Game(name)`, with `ref` the identity of the fresh object. */
  function NewGame(ref: nat, name: string): (g: Game)
    ensures g.ref == ref && g.name == name
    ensures TotalAchievements(g) == 0 && CompletedAchievements(g) == 0
  {
    Game(ref, name, [])
  }

  /** `Game.getTotalAchievements`: every achievement is either completed or pending. */
  function TotalAchievements(g: Game): (n: nat)
    ensures n == CountCompleted(g.achievements) + CountPending(g.achievements)
  {
    CompletedPlusPending(g.achievements);
    |g.achievements|
  }

  function Flag(a: Achievement): nat {
    if a.completed then 1 else 0
  }

  /** The number of achievements in `s` still pending. */
  function CountPending(s: seq<Achievement>): nat {
    if s == [] then 0 else CountPending(s[..|s| - 1]) + (if s[|s| - 1].completed then 0 else 1)
  }

  lemma {:induction false} CompletedPlusPending(s: seq<Achievement>)
    ensures CountCompleted(s) + CountPending(s) == |s|
    decreases |s|
  {
    if s != [] {
      CompletedPlusPending(s[..|s| - 1]);
    }
  }

  /** The number of completed achievements in `s`. */
  function CountCompleted(s: seq<Achievement>): (n: nat)
    ensures n <= |s|
  {
    if s == [] then 0 else CountCompleted(s[..|s| - 1]) + Flag(s[|s| - 1])
  }

  /** `Game.getCompletedAchievements`. */
  function CompletedAchievements(g: Game): (n: nat)
    ensures n <= TotalAchievements(g)
  {
    CountCompleted(g.achievements)
  }

  /** The positions of the completed achievements. */
  ghost function CompletedIndices(s: seq<Achievement>): set<nat> {
    set k: nat | k < |s| && s[k].completed
  }

  /** The completed count is the number of achievements whose flag is set. */
  lemma {:induction false} CountCompletedIsCardinality(s: seq<Achievement>)
    ensures CountCompleted(s) == |CompletedIndices(s)|
    decreases |s|
  {
    if s != [] {
      var init := s[..|s| - 1];
      CountCompletedIsCardinality(init);
      if s[|s| - 1].completed {
        assert CompletedIndices(s) == CompletedIndices(init) + {|s| - 1};
      } else {
        assert CompletedIndices(s) == CompletedIndices(init);
      }
    }
  }

  /** Every achievement is completed exactly when the count reaches the total. */
  lemma {:induction false} AllCompletedIffCountIsTotal(s: seq<Achievement>)
    ensures CountCompleted(s) == |s| <==> forall k :: 0 <= k < |s| ==> s[k].completed
    decreases |s|
  {
    if s != [] {
      var init := s[..|s| - 1];
      AllCompletedIffCountIsTotal(init);
      assert forall k :: 0 <= k < |init| ==> init[k] == s[k];
    }
  }

  lemma {:induction false} CountCompletedAppend(s: seq<Achievement>, t: seq<Achievement>)
    ensures CountCompleted(s + t) == CountCompleted(s) + CountCompleted(t)
    decreases |t|
  {
    if t == [] {
      assert s + t == s;
    } else {
      assert (s + t)[..|s + t| - 1] == s + t[..|t| - 1];
      assert (s + t)[|s + t| - 1] == t[|t| - 1];
      CountCompletedAppend(s, t[..|t| - 1]);
    }
  }

  /** Replacing one achievement moves the count by the change of its flag only. */
  lemma CountCompletedUpdate(s: seq<Achievement>, j: nat, a: Achievement)
    requires j < |s|
    ensures CountCompleted(s[j := a]) + Flag(s[j]) == CountCompleted(s) + Flag(a)
  {
    assert s == s[..j] + [s[j]] + s[j + 1..];
    assert s[j := a] == s[..j] + [a] + s[j + 1..];
    CountCompletedAppend(s[..j] + [s[j]], s[j + 1..]);
    CountCompletedAppend(s[..j], [s[j]]);
    CountCompletedAppend(s[..j] + [a], s[j + 1..]);
    CountCompletedAppend(s[..j], [a]);
    assert CountCompleted([s[j]]) == Flag(s[j]) by { assert [s[j]][..0] == []; }
    assert CountCompleted([a]) == Flag(a) by { assert [a][..0] == []; }
  }

  /** The counting loop of `Game.getCompletedAchievements`. */
  method CompletedAchievementsLoop(g: Game) returns (count: nat)
    ensures count == CompletedAchievements(g)
    ensures count == |CompletedIndices(g.achievements)|
  {
    count := 0;
    var i := 0;
    while i < |g.achievements|
      invariant i <= |g.achievements|
      invariant count == CountCompleted(g.achievements[..i])
    {
      assert g.achievements[..i + 1][..i] == g.achievements[..i];
      if g.achievements[i].completed {
        count := count + 1;
      }
      i := i + 1;
    }
    assert g.achievements[..i] == g.achievements;
    CountCompletedIsCardinality(g.achievements);
  }

  /** `Game.addAchievement`: appends at the end and keeps everything before it. */
  function AddAchievement(g: Game, a: Achievement): (r: Game)
    ensures r.ref == g.ref && r.name == g.name
    ensures |r.achievements| == |g.achievements| + 1
    ensures r.achievements[..|g.achievements|] == g.achievements
    ensures r.achievements[|g.achievements|] == a
    ensures TotalAchievements(r) == TotalAchievements(g) + 1
    ensures CompletedAchievements(r) == CompletedAchievements(g) + Flag(a)
  {
    var r := g.(achievements := g.achievements + [a]);
    assert r.achievements[..|r.achievements| - 1] == g.achievements;
    r
  }

  /** Sets the flag of the `j`-th achievement of `g`; the game object and all
      its other achievements stay as they were. */
  function SetAchievementCompleted(g: Game, j: nat): (r: Game)
    requires j < |g.achievements|
    ensures r.ref == g.ref && r.name == g.name
    ensures |r.achievements| == |g.achievements|
    ensures r.achievements[j] == SetCompleted(g.achievements[j], true)
    ensures forall m :: 0 <= m < |g.achievements| && m != j ==> r.achievements[m] == g.achievements[m]
    ensures CompletedAchievements(r) == CompletedAchievements(g) + 1 - Flag(g.achievements[j])
  {
    var a := SetCompleted(g.achievements[j], true);
    CountCompletedUpdate(g.achievements, j, a);
    g.(achievements := g.achievements[j := a])
  }

  // ----------------------------------------------------------- GameTracker

  datatype GameTracker = GameTracker(games: seq<Game>)

  /** `new GameTracker()`. */
  function EmptyTracker(): (t: GameTracker)
    ensures |t.games| == 0
  {
    GameTracker([])
  }

  /** No game object appears twice in the list: each `new Game` is a fresh
      object and the list holds only games added that way. */
  predicate WellFormed(t: GameTracker) {
    forall a, b :: 0 <= a < b < |t.games| ==> t.games[a].ref != t.games[b].ref
  }

  predicate HasRef(gs: seq<Game>, ref: nat) {
    exists k :: 0 <= k < |gs| && gs[k].ref == ref
  }

  function MaxRef(gs: seq<Game>): (m: nat)
    ensures forall k :: 0 <= k < |gs| ==> gs[k].ref <= m
  {
    if gs == [] then 0
    else
      var m := MaxRef(gs[1..]);
      if gs[0].ref > m then gs[0].ref else m
  }

  /** The identity of a newly allocated game: different from every game in `t`. */
  function FreshRef(t: GameTracker): (ref: nat)
    ensures !HasRef(t.games, ref)
  {
    MaxRef(t.games) + 1
  }

  /** `GameTracker.addGame`: appends `g` and keeps the games before it. */
  function AddGame(t: GameTracker, g: Game): (r: GameTracker)
    ensures |r.games| == |t.games| + 1
    ensures r.games[..|t.games|] == t.games
    ensures r.games[|t.games|] == g
    ensures WellFormed(t) && !HasRef(t.games, g.ref) ==> WellFormed(r)
  {
    var r := GameTracker(t.games + [g]);
    assert r.games[..|t.games|] == t.games;
    r
  }

  /** `k` is the position of the first game whose identity is `ref`. */
  predicate FirstMatch(gs: seq<Game>, ref: nat, k: nat) {
    k < |gs| && gs[k].ref == ref && forall m :: 0 <= m < k ==> gs[m].ref != ref
  }

  /** `ArrayList.remove(Object)` on games compared by reference: removes the
      first game whose identity is `ref`, or nothing when there is none. */
  function RemoveFirst(gs: seq<Game>, ref: nat): (r: seq<Game>)
    ensures !HasRef(gs, ref) ==> r == gs
    ensures HasRef(gs, ref) ==> |r| == |gs| - 1
  {
    if gs == [] then []
    else if gs[0].ref == ref then gs[1..]
    else
      assert HasRef(gs[1..], ref) ==> HasRef(gs, ref);
      assert HasRef(gs, ref) ==> HasRef(gs[1..], ref) by {
        if HasRef(gs, ref) {
          var k :| 0 <= k < |gs| && gs[k].ref == ref;
          assert gs[1..][k - 1].ref == ref;
        }
      }
      [gs[0]] + RemoveFirst(gs[1..], ref)
  }

  /** What `RemoveFirst` removes is the first match, and the games around it
      keep their relative order. */
  lemma {:induction false} RemoveFirstMatch(gs: seq<Game>, ref: nat, k: nat)
    requires FirstMatch(gs, ref, k)
    ensures RemoveFirst(gs, ref) == gs[..k] + gs[k + 1..]
    decreases k
  {
    if k > 0 {
      var tl := gs[1..];
      assert FirstMatch(tl, ref, k - 1) by {
        forall m | 0 <= m < k - 1 ensures tl[m].ref != ref { assert tl[m] == gs[m + 1]; }
      }
      RemoveFirstMatch(tl, ref, k - 1);
      assert gs[..k] == [gs[0]] + tl[..k - 1];
      assert gs[k + 1..] == tl[k..];
    }
  }

  /** `GameTracker.removeGame`. */
  function RemoveGame(t: GameTracker, ref: nat): (r: GameTracker)
    ensures !HasRef(t.games, ref) ==> r == t
    ensures HasRef(t.games, ref) ==> |r.games| == |t.games| - 1
  {
    GameTracker(RemoveFirst(t.games, ref))
  }

  /** In a well-formed tracker removing the game at position `i` takes out
      exactly that game: the others keep their order and their achievements. */
  lemma RemoveGameAt(t: GameTracker, i: nat)
    requires i < |t.games|
    ensures WellFormed(t) ==> RemoveGame(t, t.games[i].ref).games == t.games[..i] + t.games[i + 1..]
    ensures WellFormed(t) ==> WellFormed(RemoveGame(t, t.games[i].ref))
    ensures WellFormed(t) ==> !HasRef(RemoveGame(t, t.games[i].ref).games, t.games[i].ref)
  {
    if WellFormed(t) {
      var gs := t.games;
      assert FirstMatch(gs, gs[i].ref, i);
      RemoveFirstMatch(gs, gs[i].ref, i);
      var r := gs[..i] + gs[i + 1..];
      assert forall k :: 0 <= k < |r| ==> r[k] == (if k < i then gs[k] else gs[k + 1]);
    }
  }

  /** Removing a game that was just added gives back the tracker before it. */
  lemma RemoveAfterAdd(t: GameTracker, g: Game)
    requires !HasRef(t.games, g.ref)
    ensures RemoveGame(AddGame(t, g), g.ref) == t
  {
    var gs := AddGame(t, g).games;
    var n := |t.games|;
    assert FirstMatch(gs, g.ref, n);
    RemoveFirstMatch(gs, g.ref, n);
    assert gs[..n] == t.games;
    assert gs[n + 1..] == [];
    assert gs[..n] + gs[n + 1..] == t.games;
  }

  /** Replaces the game at `i` by `g`, leaving every other game untouched. */
  function UpdateGame(t: GameTracker, i: nat, g: Game): (r: GameTracker)
    requires i < |t.games|
    ensures |r.games| == |t.games|
    ensures r.games[i] == g
    ensures forall k :: 0 <= k < |t.games| && k != i ==> r.games[k] == t.games[k]
    ensures WellFormed(t) && g.ref == t.games[i].ref ==> WellFormed(r)
  {
    GameTracker(t.games[i := g])
  }
}
