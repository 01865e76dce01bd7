/**
 The list labels of src/Main.java: `Achievement.toString` and
 `Game.toString`, together with readers that recover from a label what it
 was built from, which is how the labels are shown to lose nothing.
 */
module Display {
  import opened Options
  import opened JavaText
  import opened Tracker

  const CompletedTag: string := " (Concluída)"
  const PendingTag: string := " (Pendente)"
  const Separator: string := " - "
  const CountSuffix: string := " Conquistas Concluídas"

  /** `Achievement.toString`: the name followed by its status tag. */
  function AchievementLabel(a: Achievement): (r: string)
    ensures |a.name| < |r| && r[..|a.name|] == a.name
    ensures EndsWith(r, CompletedTag) <==> a.completed
    ensures EndsWith(r, PendingTag) <==> !a.completed
  {
    var r := a.name + (if a.completed then CompletedTag else PendingTag);
    assert r[..|a.name|] == a.name;
    if a.completed then
      assert r[|r| - 2] == 'a';
      r
    else
      assert r[|r| - 2] == 'e';
      r
  }

  /** Reads a label back into the achievement it shows. */
  function ParseAchievementLabel(s: string): Option<Achievement> {
    if EndsWith(s, CompletedTag) then Some(Achievement(s[..|s| - |CompletedTag|], true))
    else if EndsWith(s, PendingTag) then Some(Achievement(s[..|s| - |PendingTag|], false))
    else None
  }

  lemma ParseAchievementLabelInverse(a: Achievement)
    ensures ParseAchievementLabel(AchievementLabel(a)) == Some(a)
  {
  }

  /** What a game label shows: the name and the completion ratio. */
  datatype GameSummary = GameSummary(name: string, completed: nat, total: nat)

  /** `Game.toString`: `name - completed/total Conquistas Concluídas`. */
  function GameLabel(g: Game): (r: string)
    ensures |g.name| < |r| && r[..|g.name|] == g.name
    ensures EndsWith(r, CountSuffix)
  {
    var r := g.name + Separator + NatToString(CompletedAchievements(g)) + "/"
             + NatToString(TotalAchievements(g)) + CountSuffix;
    assert r[..|g.name|] == g.name;
    r
  }

  /** The number of decimal digits at the end of `s`. */
  function TrailingDigits(s: string): (n: nat)
    ensures n <= |s|
    ensures AllDigits(s[|s| - n..])
    ensures n < |s| ==> !IsDigit(s[|s| - n - 1])
  {
    if |s| > 0 && IsDigit(s[|s| - 1]) then
      var n := TrailingDigits(s[..|s| - 1]) + 1;
      assert s[|s| - n..] == s[..|s| - 1][|s| - n..] + [s[|s| - 1]];
      n
    else 0
  }

  lemma {:induction false} TrailingDigitsOfConcat(p: string, d: string)
    requires AllDigits(d)
    requires p != [] && !IsDigit(p[|p| - 1])
    ensures TrailingDigits(p + d) == |d|
    decreases |d|
  {
    if d == [] {
      assert p + d == p;
    } else {
      assert (p + d)[..|p + d| - 1] == p + d[..|d| - 1];
      TrailingDigitsOfConcat(p, d[..|d| - 1]);
    }
  }

  /** Reads a game label back, right to left: the fixed suffix, then the ratio. */
  function ParseGameLabel(s: string): Option<GameSummary> {
    if EndsWith(s, CountSuffix) then ParseRatio(s[..|s| - |CountSuffix|]) else None
  }

  /** Reads `name - completed/total`: the total, the slash, then the rest. */
  function ParseRatio(body: string): Option<GameSummary> {
    var n := TrailingDigits(body);
    if n == 0 || n == |body| || body[|body| - n - 1] != '/' then None
    else ParseCompleted(body[..|body| - n - 1], ParseDecimal(body[|body| - n..]))
  }

  /** Reads `name - completed`: the completed count, the separator, the name. */
  function ParseCompleted(rest: string, total: nat): Option<GameSummary> {
    var n := TrailingDigits(rest);
    var head := rest[..|rest| - n];
    if n == 0 || !EndsWith(head, Separator) then None
    else Some(GameSummary(head[..|head| - |Separator|], ParseDecimal(rest[|rest| - n..]), total))
  }

  lemma ParseCompletedParts(name: string, cs: string, total: nat)
    requires cs != [] && AllDigits(cs)
    ensures ParseCompleted(name + Separator + cs, total) ==
            Some(GameSummary(name, ParseDecimal(cs), total))
  {
    var head := name + Separator;
    var rest := head + cs;
    TrailingDigitsOfConcat(head, cs);
    assert rest[..|rest| - |cs|] == head;
    assert rest[|rest| - |cs|..] == cs;
    assert head[|head| - |Separator|..] == Separator;
    assert head[..|head| - |Separator|] == name;
  }

  lemma ParseRatioParts(rest: string, ts: string)
    requires ts != [] && AllDigits(ts)
    ensures ParseRatio(rest + "/" + ts) == ParseCompleted(rest, ParseDecimal(ts))
  {
    var body := rest + "/" + ts;
    TrailingDigitsOfConcat(rest + "/", ts);
    assert body[|body| - |ts|..] == ts;
    assert body[|body| - |ts| - 1] == '/';
    assert body[..|body| - |ts| - 1] == rest;
  }

  /** Reading `name - cs/ts` + suffix back gives the parts it was built from. */
  lemma ParseLabelParts(name: string, cs: string, ts: string)
    requires cs != [] && AllDigits(cs)
    requires ts != [] && AllDigits(ts)
    ensures ParseGameLabel(name + Separator + cs + "/" + ts + CountSuffix) ==
            Some(GameSummary(name, ParseDecimal(cs), ParseDecimal(ts)))
  {
    var rest := name + Separator + cs;
    var body := rest + "/" + ts;
    var s := body + CountSuffix;
    assert s[|s| - |CountSuffix|..] == CountSuffix;
    assert s[..|s| - |CountSuffix|] == body;
    ParseRatioParts(rest, ts);
    ParseCompletedParts(name, cs, ParseDecimal(ts));
  }

  /** A game label determines the game's name and both of its counts. */
  lemma ParseGameLabelInverse(g: Game)
    ensures ParseGameLabel(GameLabel(g)) ==
            Some(GameSummary(g.name, CompletedAchievements(g), TotalAchievements(g)))
  {
    ParseLabelParts(g.name, NatToString(CompletedAchievements(g)), NatToString(TotalAchievements(g)));
    ParseNatToString(CompletedAchievements(g));
    ParseNatToString(TotalAchievements(g));
  }

  /** Two games with the same label agree on name, completed count and total. */
  lemma GameLabelInjective(g: Game, h: Game)
    requires GameLabel(g) == GameLabel(h)
    ensures g.name == h.name
    ensures CompletedAchievements(g) == CompletedAchievements(h)
    ensures TotalAchievements(g) == TotalAchievements(h)
  {
    ParseGameLabelInverse(g);
    ParseGameLabelInverse(h);
  }
}
