/**
 * The placeholder suggestion generator of `app/routers/suggestions.py`: up
 * to three review questions per weak area of each learning-analytics
 * record, and the message reporting how many were stored.
 */
module Suggestions {
  import opened Text
  import opened Values
  import opened Analytics

  /** A stored suggestion; the `suggested_at` timestamp is left out. */
  datatype Suggestion = Suggestion(
    userId: string,
    questionText: string,
    subject: string,
    topic: string,
    difficulty: string,
    basedOn: seq<string>,
    isCompleted: bool)

  /** What the endpoint does: its message and the suggestions it inserts (none: no insert). */
  datatype Outcome = Outcome(message: string, inserted: seq<Suggestion>)

  const PerRecord: nat := 3
  const NoData: string := "No learning data available for suggestions"
  const NoneGenerated: string := "No new suggestions generated"

  /** The review-question text for a topic of a subject. */
  function ReviewText(topic: string, subject: string): string {
    "Review question about " + topic + " in " + subject
  }

  /** A suggestion built for weak area `w` of a record on `subject`. */
  predicate Describes(s: Suggestion, userId: string, subject: string, w: string) {
    && s.userId == userId
    && s.questionText == ReviewText(w, subject)
    && s.subject == subject
    && s.topic == w
    && s.difficulty == "medium"
    && s.basedOn == [w]
    && !s.isCompleted
  }

  function SuggestionFor(userId: string, subject: string, w: string): (r: Suggestion)
    ensures Describes(r, userId, subject, w)
  {
    Suggestion(userId, ReviewText(w, subject), subject, w, "medium", [w], false)
  }

  /** The suggestions one record contributes: one per weak area among its first three. */
  function FromRecord(userId: string, a: Analytic): (r: seq<Suggestion>)
    ensures |r| == |Take(a.weakAreas, PerRecord)|
    ensures forall j :: 0 <= j < |r| ==> Describes(r[j], userId, a.subject, a.weakAreas[j])
  {
    var areas := Take(a.weakAreas, PerRecord);
    seq(|areas|, j requires 0 <= j < |areas| => SuggestionFor(userId, a.subject, areas[j]))
  }

  /** The loop over all records, in order. */
  function BuildSuggestions(userId: string, analytics: seq<Analytic>): (r: seq<Suggestion>)
    decreases |analytics|
  {
    if analytics == [] then []
    else FromRecord(userId, analytics[0]) + BuildSuggestions(userId, analytics[1..])
  }

  /** `generate_suggestions` over the user's records. */
  function GenerateSuggestions(userId: string, analytics: seq<Analytic>): (r: Outcome)
    ensures analytics == [] ==> r == Outcome(NoData, [])
    ensures r.inserted == [] <==> r.message in {NoData, NoneGenerated}
  {
    if analytics == [] then Outcome(NoData, [])
    else
      var built := BuildSuggestions(userId, analytics);
      if built != [] then Outcome(Generated(|built|), built)
      else Outcome(NoneGenerated, [])
  }

  /** The message reporting `n` new suggestions. */
  function Generated(n: nat): (r: string)
    ensures r != NoData && r != NoneGenerated
  {
    var r := "Generated " + NatToString(n) + " new suggestions";
    assert r[0] == 'G';
    r
  }

  /** The count can be read back from the message: different counts give different messages. */
  lemma GeneratedInjective(m: nat, n: nat)
    requires Generated(m) == Generated(n)
    ensures m == n
  {
    var a := NatToString(m);
    var b := NatToString(n);
    var p := "Generated ";
    var q := " new suggestions";
    assert |a| == |b|;
    assert a == Generated(m)[|p|..|p| + |a|] == Generated(n)[|p|..|p| + |b|] == b;
    NatToStringInjective(m, n);
  }

  // ---------------------------------------------------------------- reference

  /** How many suggestions the records call for: at most three per record. */
  function Budget(analytics: seq<Analytic>): nat
    decreases |analytics|
  {
    if analytics == [] then 0
    else
      var n := |analytics[0].weakAreas|;
      (if n < PerRecord then n else PerRecord) + Budget(analytics[1..])
  }

  /** The (subject, weak area) pairs to cover, record by record. */
  function Planned(analytics: seq<Analytic>): seq<(string, string)>
    decreases |analytics|
  {
    if analytics == [] then []
    else
      var a := analytics[0];
      var areas := Take(a.weakAreas, PerRecord);
      seq(|areas|, j requires 0 <= j < |areas| => (a.subject, areas[j])) + Planned(analytics[1..])
  }

  /**
   * The suggestions built cover exactly the planned pairs, in order, each
   * one fully described by its pair, and there are `Budget` of them.
   */
  lemma {:induction false} BuildSuggestionsSpec(userId: string, analytics: seq<Analytic>)
    ensures var r := BuildSuggestions(userId, analytics);
      var plan := Planned(analytics);
      && |r| == |plan| == Budget(analytics)
      && forall i :: 0 <= i < |r| ==> Describes(r[i], userId, plan[i].0, plan[i].1)
    decreases |analytics|
  {
    if analytics != [] {
      BuildSuggestionsSpec(userId, analytics[1..]);
      var a := analytics[0];
      var head := FromRecord(userId, a);
      var rest := BuildSuggestions(userId, analytics[1..]);
      var areas := Take(a.weakAreas, PerRecord);
      var planHead := seq(|areas|, j requires 0 <= j < |areas| => (a.subject, areas[j]));
      var plan := planHead + Planned(analytics[1..]);
      assert Planned(analytics) == plan;
      forall i | 0 <= i < |head| + |rest|
        ensures Describes((head + rest)[i], userId, plan[i].0, plan[i].1)
      {
        if i < |head| {
          assert (head + rest)[i] == head[i];
        } else {
          assert (head + rest)[i] == rest[i - |head|];
          assert plan[i] == Planned(analytics[1..])[i - |head|];
        }
      }
    }
  }

  /** A record without weak areas contributes nothing wherever it stands. */
  lemma {:induction false} EmptyRecordContributesNothing(userId: string, before: seq<Analytic>, a: Analytic, after: seq<Analytic>)
    requires a.weakAreas == []
    ensures BuildSuggestions(userId, before + [a] + after) == BuildSuggestions(userId, before + after)
    decreases |before|
  {
    if before == [] {
      assert before + [a] + after == [a] + after && before + after == after;
      assert ([a] + after)[1..] == after;
      assert FromRecord(userId, a) == [];
    } else {
      EmptyRecordContributesNothing(userId, before[1..], a, after);
      assert (before + [a] + after)[1..] == before[1..] + [a] + after;
      assert (before + after)[1..] == before[1..] + after;
    }
  }

  /**
   * The message reports the number inserted: without records, no data;
   * with records, either "Generated n new suggestions" for the `Budget`
   * suggestions inserted, or no insert when no record has a weak area.
   */
  lemma GenerateSuggestionsSpec(userId: string, analytics: seq<Analytic>)
    ensures var r := GenerateSuggestions(userId, analytics);
      && |r.inserted| == Budget(analytics)
      && (analytics == [] ==> r.message == NoData)
      && (analytics != [] && Budget(analytics) > 0 ==> r.message == Generated(Budget(analytics)))
      && (analytics != [] && Budget(analytics) == 0 ==> r.message == NoneGenerated)
  {
    BuildSuggestionsSpec(userId, analytics);
  }
}
