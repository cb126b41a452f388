/** Selection of the skills to emit (`pick_skills`,
    tools/skill_router.py:90-116): score every record, rank, admit by the
    relative threshold under the cap, and fall back when nothing is admitted. */
module Selection {
  import opened Wrappers
  import opened Json
  import opened Text
  import opened Catalog
  import opened Scoring
  import opened Ranking

  /** MIN_SCORE */
  const MinScore := 2
  /** RELATIVE_THRESHOLD (0.7) in tenths. */
  const ThresholdTenths := 7
  /** The identifier preferred by the fallback. */
  const DefaultSkill := "brainstorming"

  function Max(a: int, b: int): int { if a >= b then a else b }
  function Min(a: int, b: int): int { if a <= b then a else b }

  /** The `(score, name)` pair of every record, in catalog order. */
  function ScoreAll(skills: seq<Skill>, tokens: seq<string>, feedback: map<string, Value>, bundle: set<string>)
    : (r: seq<Scored>)
    ensures |r| == |skills|
    ensures forall i :: 0 <= i < |skills| ==>
      r[i] == Scored(Score(skills[i], tokens, feedback, bundle), Identifier(skills[i]))
  {
    seq(|skills|, i requires 0 <= i < |skills| =>
      Scored(Score(skills[i], tokens, feedback, bundle), Identifier(skills[i])))
  }

  /** The ranked candidates of a task. */
  function Ranked(skills: seq<Skill>, task: string, feedback: map<string, Value>, bundle: set<string>)
    : seq<Scored>
  {
    Rank(ScoreAll(skills, Tokenize(task), feedback, bundle))
  }

  function TopScore(ranked: seq<Scored>): int {
    if ranked == [] then 0 else ranked[0].score
  }

  /** `max(MIN_SCORE, int(top_score * RELATIVE_THRESHOLD))` in exact arithmetic:
      the least value of at least 2 whose successor exceeds seven tenths of the
      top score. */
  function Threshold(top: int): (r: int)
    ensures r >= MinScore
    ensures r == MinScore || 10 * r <= ThresholdTenths * top
    ensures ThresholdTenths * top < 10 * (r + 1)
  {
    Max(MinScore, (ThresholdTenths * top) / 10)
  }

  /** How many entries of `s` score at least `t`. */
  function CountAtLeast(s: seq<Scored>, t: int): (r: nat)
    ensures r <= |s|
  {
    if s == [] then 0 else (if s[0].score >= t then 1 else 0) + CountAtLeast(s[1..], t)
  }

  function Names(s: seq<Scored>): (r: seq<string>)
    ensures |r| == |s|
    ensures forall i :: 0 <= i < |s| ==> r[i] == s[i].name
  {
    seq(|s|, i requires 0 <= i < |s| => s[i].name)
  }

  /** The identifiers the admission loop keeps: the first
      `min(max_skills, k)` ranked names, where `k` entries reach the threshold. */
  function Admitted(ranked: seq<Scored>, maxSkills: int): seq<string> {
    AdmittedAt(ranked, maxSkills, Threshold(TopScore(ranked)))
  }

  /** The admission loop for a given threshold `t`. */
  function AdmittedAt(ranked: seq<Scored>, maxSkills: int, t: int): seq<string> {
    Names(ranked[..Min(Max(0, maxSkills), CountAtLeast(ranked, t))])
  }

  /** Some record's `id` is the default identifier. */
  predicate HasDefault(skills: seq<Skill>) {
    exists i :: 0 <= i < |skills| && skills[i].id == DefaultSkill
  }

  /** The selection `pick_skills` returns. */
  function Pick(skills: seq<Skill>, task: string, maxSkills: int, feedback: map<string, Value>, bundle: set<string>)
    : (r: seq<string>)
    ensures |r| <= Max(1, maxSkills)
    ensures r == [] <==> skills == []
  {
    Choose(skills, Ranked(skills, task, feedback, bundle), maxSkills)
  }

  /** The admitted names, or the fallback when there are none. */
  function Choose(skills: seq<Skill>, ranked: seq<Scored>, maxSkills: int): (r: seq<string>)
    ensures |r| <= Max(1, maxSkills)
    ensures r == [] <==> ranked == [] && !HasDefault(skills)
  {
    var admitted := Admitted(ranked, maxSkills);
    if admitted != [] then admitted
    else if HasDefault(skills) then [DefaultSkill]
    else if ranked != [] then [ranked[0].name]
    else []
  }

  /** The scoring loop of `pick_skills`. */
  method ScoreRecords(skills: seq<Skill>, tokens: seq<string>, feedback: map<string, Value>, bundle: set<string>)
    returns (scored: seq<Scored>)
    ensures |scored| == |skills|
    ensures forall i :: 0 <= i < |skills| ==>
      scored[i].score == Score(skills[i], tokens, feedback, bundle) && scored[i].name == Identifier(skills[i])
  {
    ghost var all := ScoreAll(skills, tokens, feedback, bundle);
    scored := [];
    for i := 0 to |skills|
      invariant scored == all[..i]
    {
      var score, name := ScoreSkill(skills[i], tokens, feedback, bundle);
      assert all[..i + 1] == all[..i] + [all[i]];
      scored := scored + [Scored(score, name)];
    }
    assert all[..|skills|] == all;
  }

  /** The admission loop of `pick_skills`: stop once `max_skills` are picked,
      skip entries scoring 0 or less, keep those reaching the threshold (the
      exact `Threshold`; `FloatRule.AdmittedAsWritten` has the source's
      floating-point one). */
  method Admit(ranked: seq<Scored>, maxSkills: int) returns (picked: seq<string>)
    requires SortedDesc(ranked)
    ensures picked == Admitted(ranked, maxSkills)
  {
    var topScore := if ranked != [] then ranked[0].score else 0;
    var threshold := Threshold(topScore);
    ghost var count := CountAtLeast(ranked, threshold);
    CountAtLeastPrefix(ranked, threshold);
    picked := [];
    var k := 0;
    while k < |ranked|
      invariant 0 <= k <= |ranked|
      invariant picked == Names(ranked[..Min(k, count)])
      invariant |picked| <= Max(0, maxSkills)
    {
      if |picked| >= maxSkills {
        break;
      }
      var entry := ranked[k];
      if entry.score <= 0 {
        k := k + 1;
        continue;
      }
      if entry.score >= threshold {
        assert ranked[..k + 1] == ranked[..k] + [entry];
        picked := picked + [entry.name];
      }
      k := k + 1;
    }
  }

  /** `next((s.get("id") for s in skills if s.get("id") == "brainstorming"), None)` */
  method FindDefault(skills: seq<Skill>) returns (found: Option<string>)
    ensures found.Some? <==> HasDefault(skills)
    ensures found.Some? ==> found.value == DefaultSkill
  {
    found := None;
    var j := 0;
    while j < |skills| && found.None?
      invariant 0 <= j <= |skills|
      invariant found.None? ==> forall i :: 0 <= i < j ==> skills[i].id != DefaultSkill
      invariant found.Some? ==> found.value == DefaultSkill && HasDefault(skills)
    {
      if skills[j].id == DefaultSkill {
        found := Some(skills[j].id);
      }
      j := j + 1;
    }
  }

  /** `pick_skills` as the source writes it, with the exact threshold
      `Threshold` in place of the floating-point one (see `FloatRule`). */
  method PickSkills(skills: seq<Skill>, task: string, maxSkills: int, feedback: map<string, Value>, bundle: set<string>)
    returns (picked: seq<string>)
    ensures picked == Pick(skills, task, maxSkills, feedback, bundle)
  {
    var taskTokens := Tokenize(task);
    var scored := ScoreRecords(skills, taskTokens, feedback, bundle);
    assert scored == ScoreAll(skills, taskTokens, feedback, bundle);
    var ranked := Rank(scored);
    picked := Admit(ranked, maxSkills);
    if picked == [] {
      var fallback := FindDefault(skills);
      if fallback.Some? && fallback.value != "" {
        picked := [fallback.value];
      } else if ranked != [] {
        picked := [ranked[0].name];
      }
    }
  }

  // ---------------------------------------------------------------------------
  // Lemmas
  // ---------------------------------------------------------------------------

  /** Every pick is the identifier of some catalog record. */
  lemma PicksFromCatalog(skills: seq<Skill>, task: string, maxSkills: int, feedback: map<string, Value>, bundle: set<string>)
    ensures forall n :: n in Pick(skills, task, maxSkills, feedback, bundle) ==>
      exists i :: 0 <= i < |skills| && Identifier(skills[i]) == n
  {
    RankedFromCatalog(skills, task, feedback, bundle);
    ChoiceFromCatalog(skills, Ranked(skills, task, feedback, bundle), maxSkills);
  }

  lemma ChoiceFromCatalog(skills: seq<Skill>, ranked: seq<Scored>, maxSkills: int)
    requires forall k :: 0 <= k < |ranked| ==> exists i :: 0 <= i < |skills| && ranked[k].name == Identifier(skills[i])
    ensures forall n :: n in Choose(skills, ranked, maxSkills) ==>
      exists i :: 0 <= i < |skills| && Identifier(skills[i]) == n
  {
    var p := Choose(skills, ranked, maxSkills);
    if Admitted(ranked, maxSkills) != [] {
      AdmittedFromRanked(ranked, maxSkills);
    } else if HasDefault(skills) {
      var i :| 0 <= i < |skills| && skills[i].id == DefaultSkill;
      assert Identifier(skills[i]) == DefaultSkill;
    }
  }

  /** Every admitted name is the name of a ranked entry. */
  lemma AdmittedFromRanked(ranked: seq<Scored>, maxSkills: int)
    ensures forall n :: n in Admitted(ranked, maxSkills) ==>
      exists k :: 0 <= k < |ranked| && ranked[k].name == n
  {
    var t := Threshold(TopScore(ranked));
    var m := Min(Max(0, maxSkills), CountAtLeast(ranked, t));
    var a := Admitted(ranked, maxSkills);
    assert a == Names(ranked[..m]);
    forall n | n in a
      ensures exists k :: 0 <= k < |ranked| && ranked[k].name == n
    {
      var k :| 0 <= k < |a| && a[k] == n;
      assert ranked[..m][k] == ranked[k];
    }
  }

  /** Every ranked entry is the pair of some catalog record. */
  lemma RankedFromCatalog(skills: seq<Skill>, task: string, feedback: map<string, Value>, bundle: set<string>)
    ensures forall k :: 0 <= k < |Ranked(skills, task, feedback, bundle)| ==>
      exists i :: 0 <= i < |skills| && Ranked(skills, task, feedback, bundle)[k].name == Identifier(skills[i])
  {
    var scored := ScoreAll(skills, Tokenize(task), feedback, bundle);
    RankedNames(skills, scored);
    assert Ranked(skills, task, feedback, bundle) == Rank(scored);
  }

  lemma RankedNames(skills: seq<Skill>, scored: seq<Scored>)
    requires |scored| == |skills|
    requires forall i :: 0 <= i < |skills| ==> scored[i].name == Identifier(skills[i])
    ensures forall k :: 0 <= k < |Rank(scored)| ==>
      exists i :: 0 <= i < |skills| && Rank(scored)[k].name == Identifier(skills[i])
  {
    var ranked := Rank(scored);
    forall k | 0 <= k < |ranked|
      ensures exists i :: 0 <= i < |skills| && ranked[k].name == Identifier(skills[i])
    {
      RankMember(scored, k);
      var i :| 0 <= i < |scored| && scored[i] == ranked[k];
      assert ranked[k].name == Identifier(skills[i]);
    }
  }

  /** In a descending sequence the entries reaching `t` are exactly the first
      `CountAtLeast(s, t)`. */
  lemma {:induction false} CountAtLeastPrefix(s: seq<Scored>, t: int)
    requires SortedDesc(s)
    ensures forall k :: 0 <= k < |s| ==> (k < CountAtLeast(s, t) <==> s[k].score >= t)
    decreases |s|
  {
    if s != [] {
      CountAtLeastPrefix(s[1..], t);
      if s[0].score < t {
        assert forall k :: 0 <= k < |s| ==> s[k].score < t;
        CountAtLeastNone(s[1..], t);
      }
      forall k | 0 <= k < |s|
        ensures k < CountAtLeast(s, t) <==> s[k].score >= t
      {
        if k > 0 {
          assert s[k] == s[1..][k - 1];
        }
      }
    }
  }

  lemma {:induction false} CountAtLeastNone(s: seq<Scored>, t: int)
    requires forall k :: 0 <= k < |s| ==> s[k].score < t
    ensures CountAtLeast(s, t) == 0
    decreases |s|
  {
    if s != [] {
      CountAtLeastNone(s[1..], t);
    }
  }

  /** The admitted picks are the ranked names in order, each scoring at least
      the threshold (so more than 0); when fewer than the cap were admitted,
      every later entry is below the threshold. */
  lemma AdmittedByThreshold(ranked: seq<Scored>, maxSkills: int)
    requires SortedDesc(ranked)
    ensures var a := Admitted(ranked, maxSkills);
      && |a| <= Max(0, maxSkills)
      && (forall k :: 0 <= k < |a| ==>
            a[k] == ranked[k].name && ranked[k].score >= Threshold(TopScore(ranked)) && ranked[k].score > 0)
      && (|a| < maxSkills ==>
            forall k :: |a| <= k < |ranked| ==> ranked[k].score < Threshold(TopScore(ranked)))
  {
    CountAtLeastPrefix(ranked, Threshold(TopScore(ranked)));
  }

  /** With a top score of at least 2 and room for one pick, the top-ranked
      record is picked first. */
  lemma TopRankedFirst(skills: seq<Skill>, task: string, maxSkills: int, feedback: map<string, Value>, bundle: set<string>)
    requires TopScore(Ranked(skills, task, feedback, bundle)) >= MinScore
    requires maxSkills >= 1
    ensures Pick(skills, task, maxSkills, feedback, bundle) != []
    ensures Pick(skills, task, maxSkills, feedback, bundle)[0] == Ranked(skills, task, feedback, bundle)[0].name
  {
    var ranked := Ranked(skills, task, feedback, bundle);
    var t := Threshold(TopScore(ranked));
    CountAtLeastPrefix(ranked, t);
    assert ranked[0].score >= t;
    assert CountAtLeast(ranked, t) >= 1;
  }

  /** When nothing reaches the threshold the fallback decides, in priority
      order: the default identifier when some record's `id` is it, else the
      first ranked identifier, else nothing. */
  lemma Fallback(skills: seq<Skill>, task: string, maxSkills: int, feedback: map<string, Value>, bundle: set<string>)
    requires Admitted(Ranked(skills, task, feedback, bundle), maxSkills) == []
    ensures HasDefault(skills) ==> Pick(skills, task, maxSkills, feedback, bundle) == [DefaultSkill]
    ensures !HasDefault(skills) && skills != [] ==>
      Pick(skills, task, maxSkills, feedback, bundle) == [Ranked(skills, task, feedback, bundle)[0].name]
    ensures skills == [] ==> Pick(skills, task, maxSkills, feedback, bundle) == []
  {
  }

  /** The threshold read as a percentage: a score passes exactly when it is at
      least 2 and its successor exceeds seven tenths of the top score, that is
      when it reaches the integer part of 70% of the top. */
  lemma AdmitsAtSeventyPercent(top: int, score: int)
    ensures score >= Threshold(top) <==> score >= MinScore && 10 * (score + 1) > ThresholdTenths * top
  {
  }

  /** When something is admitted, the fallback plays no part. */
  lemma NoFallbackWhenAdmitted(skills: seq<Skill>, task: string, maxSkills: int, feedback: map<string, Value>, bundle: set<string>)
    requires Admitted(Ranked(skills, task, feedback, bundle), maxSkills) != []
    ensures Pick(skills, task, maxSkills, feedback, bundle) == Admitted(Ranked(skills, task, feedback, bundle), maxSkills)
  {
  }
}
