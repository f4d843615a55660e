/**
 * The pure rules of the analytics router (`app/routers/analytics.py`): the
 * average difficulty of a question pattern, the weak-area projection, and
 * the guarded ratios of the overview and subject-progress endpoints.
 */
module Analytics {
  import opened Values

  /** A learning-analytics record as the database stores it; only the fields read here. */
  datatype Analytic = Analytic(subject: string, weakAreas: seq<string>, lastActivity: Value)

  // ---------------------------------------------------------------- average difficulty

  datatype Level = Easy | Medium | Hard

  function LevelName(l: Level): string {
    match l
    case Easy => "easy"
    case Medium => "medium"
    case Hard => "hard"
  }

  /** `difficulties.count(name)`: only the exact string counts. */
  function Count(ds: seq<Value>, name: string): (r: nat)
    ensures r <= |ds|
    decreases |ds|
  {
    if ds == [] then 0
    else (if ds[0] == Str(name) then 1 else 0) + Count(ds[1..], name)
  }

  function LevelCount(ds: seq<Value>, l: Level): nat {
    Count(ds, LevelName(l))
  }

  /** The average difficulty of `get_question_patterns`. */
  function AvgDifficulty(ds: seq<Value>): (r: Level) {
    var easy := LevelCount(ds, Easy);
    var medium := LevelCount(ds, Medium);
    var hard := LevelCount(ds, Hard);
    if hard > medium && hard > easy then Hard
    else if medium > easy then Medium
    else Easy
  }

  /** Position of a level from easiest to hardest. */
  function Rank(l: Level): nat {
    match l
    case Easy => 0
    case Medium => 1
    case Hard => 2
  }

  /**
   * The rule picks a most frequent level, and among equally frequent levels
   * the easiest: every level is at most as frequent as the result, and every
   * easier level strictly less frequent.
   */
  lemma AvgDifficultyIsEasiestMode(ds: seq<Value>)
    ensures var r := AvgDifficulty(ds);
      forall l: Level ::
        && LevelCount(ds, l) <= LevelCount(ds, r)
        && (Rank(l) < Rank(r) ==> LevelCount(ds, l) < LevelCount(ds, r))
  {
  }

  /** Conversely, a level that is a most frequent one and beats every easier level is the result. */
  lemma EasiestModeIsAvgDifficulty(ds: seq<Value>, m: Level)
    requires forall l: Level :: LevelCount(ds, l) <= LevelCount(ds, m)
    requires forall l: Level :: Rank(l) < Rank(m) ==> LevelCount(ds, l) < LevelCount(ds, m)
    ensures AvgDifficulty(ds) == m
  {
    AvgDifficultyIsEasiestMode(ds);
    var r := AvgDifficulty(ds);
    assert LevelCount(ds, m) <= LevelCount(ds, r) && LevelCount(ds, r) <= LevelCount(ds, m);
  }

  /** A value that is not exactly one of the three names changes no count. */
  lemma {:induction false} CountIgnores(ds: seq<Value>, x: Value, name: string)
    requires x != Str(name)
    ensures Count(ds + [x], name) == Count(ds, name)
    decreases |ds|
  {
    if ds == [] {
      assert [x][1..] == [];
    } else {
      assert (ds + [x])[1..] == ds[1..] + [x];
      CountIgnores(ds[1..], x, name);
    }
  }

  /** Appending an unrecognised difficulty does not change the average. */
  lemma OtherValuesIgnored(ds: seq<Value>, x: Value)
    requires x != Str("easy") && x != Str("medium") && x != Str("hard")
    ensures AvgDifficulty(ds + [x]) == AvgDifficulty(ds)
  {
    CountIgnores(ds, x, "easy");
    CountIgnores(ds, x, "medium");
    CountIgnores(ds, x, "hard");
  }

  /** Ties and an empty list fall to "easy"; a hard–medium tie above easy gives "medium". */
  lemma AvgDifficultyTies()
    ensures AvgDifficulty([]) == Easy
    ensures AvgDifficulty([Str("easy"), Str("medium")]) == Easy
    ensures AvgDifficulty([Str("hard"), Str("medium")]) == Medium
    ensures AvgDifficulty([Str("hard"), Str("easy"), Str("x")]) == Easy
  {
    assert [Str("easy"), Str("medium")][1..] == [Str("medium")];
    assert [Str("hard"), Str("medium")][1..] == [Str("medium")];
    assert [Str("hard"), Str("easy"), Str("x")][1..] == [Str("easy"), Str("x")];
    assert [Str("easy"), Str("x")][1..] == [Str("x")];
  }

  // ---------------------------------------------------------------- weak areas

  /** An entry of the weak-areas response. */
  datatype WeakAreas = WeakAreas(subject: string, weakTopics: seq<string>, questionsNeeded: int, lastStudied: Value)

  /** `get_weak_areas`: records with weak areas, in order, asking three questions per weak topic. */
  function GetWeakAreas(analytics: seq<Analytic>): (r: seq<WeakAreas>)
    ensures forall i :: 0 <= i < |r| ==> r[i].questionsNeeded == 3 * |r[i].weakTopics| > 0
    decreases |analytics|
  {
    if analytics == [] then []
    else
      var a := analytics[0];
      var rest := GetWeakAreas(analytics[1..]);
      if a.weakAreas != [] then [WeakAreas(a.subject, a.weakAreas, |a.weakAreas| * 3, a.lastActivity)] + rest
      else rest
  }

  /** The records a weak-area listing reports on. */
  function WithWeakAreas(analytics: seq<Analytic>): seq<Analytic>
    decreases |analytics|
  {
    if analytics == [] then []
    else if analytics[0].weakAreas != [] then [analytics[0]] + WithWeakAreas(analytics[1..])
    else WithWeakAreas(analytics[1..])
  }

  /** One entry per record with weak areas, carrying that record's subject, topics and activity. */
  lemma {:induction false} GetWeakAreasSpec(analytics: seq<Analytic>)
    ensures var r := GetWeakAreas(analytics);
      var kept := WithWeakAreas(analytics);
      && |r| == |kept|
      && forall i :: 0 <= i < |r| ==>
           r[i].subject == kept[i].subject && r[i].weakTopics == kept[i].weakAreas
           && r[i].lastStudied == kept[i].lastActivity
    decreases |analytics|
  {
    if analytics != [] {
      GetWeakAreasSpec(analytics[1..]);
    }
  }

  // ---------------------------------------------------------------- guarded ratios

  /** `avg_questions_per_note`, over the reals. */
  function AvgQuestionsPerNote(questions: nat, notes: nat): (r: real)
    ensures notes == 0 ==> r == 0.0
    ensures notes > 0 ==> r * notes as real == questions as real
    ensures r >= 0.0
  {
    if notes > 0 then questions as real / notes as real else 0.0
  }

  /** `progress_percentage`, over the reals: ten questions make 100%. */
  function ProgressPercentage(questions: nat): (r: real)
    ensures 0.0 <= r <= 100.0
    ensures r == 0.0 <==> questions == 0
    ensures r == 100.0 <==> questions >= 10
  {
    if questions > 0 then
      var p := (questions as real / 10.0) * 100.0;
      if p < 100.0 then p else 100.0
    else 0.0
  }

  /** More questions never lower the progress. */
  lemma ProgressMonotone(a: nat, b: nat)
    requires a <= b
    ensures ProgressPercentage(a) <= ProgressPercentage(b)
  {
  }
}
