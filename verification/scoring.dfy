/** Relevance scoring of one catalog record against the task tokens
    (`score_skill`, tools/skill_router.py:66-87). */
module Scoring {
  import opened Wrappers
  import opened Json
  import opened Text
  import opened Catalog

  /** Points for a task token found among the name or path tokens. */
  const NamePathPoints := 3
  /** Points for a task token found among the description tokens. */
  const DescriptionPoints := 1
  /** Flat boost for a record whose identifier is in the active bundle. */
  const BundleBoost := 5

  /** `skill.get("id") or skill.get("name") or ""`: the name under which a
      record is scored, picked and given feedback. */
  function Identifier(s: Skill): (r: string)
    ensures r == s.id || r == s.name
    ensures r == "" <==> s.id == "" && s.name == ""
    ensures s.id != "" ==> r == s.id
  {
    if s.id != "" then s.id else if s.name != "" then s.name else ""
  }

  /** The token sets a record is matched against. */
  datatype Fields = Fields(name: set<string>, description: set<string>, path: set<string>)

  function FieldsOf(s: Skill): Fields {
    Fields(TokenSet(Identifier(s)), TokenSet(s.description), TokenSet(s.path))
  }

  /** What one occurrence of a task token adds: 3 for a name or path match, and
      independently 1 for a description match. */
  function TokenPoints(token: string, f: Fields): (r: int)
    ensures r == 0 || r == 1 || r == 3 || r == 4
    ensures r >= NamePathPoints <==> token in f.name || token in f.path
    ensures (r == 1 || r == 4) <==> token in f.description
  {
    (if token in f.name || token in f.path then NamePathPoints else 0)
    + (if token in f.description then DescriptionPoints else 0)
  }

  /** The token part of the score: every occurrence counts, duplicates
      included. */
  function LexicalScore(tokens: seq<string>, f: Fields): (r: int)
    ensures 0 <= r <= 4 * |tokens|
  {
    if tokens == [] then 0 else TokenPoints(tokens[0], f) + LexicalScore(tokens[1..], f)
  }

  /** `feedback.get(name)` when it is a number, otherwise nothing. */
  function Bias(feedback: map<string, Value>, name: string): int {
    if name in feedback && Numeric(feedback[name]).Some? then Numeric(feedback[name]).value else 0
  }

  /** The score `score_skill` returns. */
  function Score(s: Skill, tokens: seq<string>, feedback: map<string, Value>, bundle: set<string>): int {
    LexicalScore(tokens, FieldsOf(s))
    + (if Identifier(s) in bundle then BundleBoost else 0)
    + Bias(feedback, Identifier(s))
  }

  /** `score_skill` as the source writes it: one pass over the task tokens. */
  method ScoreSkill(s: Skill, tokens: seq<string>, feedback: map<string, Value>, bundle: set<string>)
    returns (score: int, name: string)
    ensures name == Identifier(s)
    ensures score == Score(s, tokens, feedback, bundle)
  {
    name := if s.id != "" then s.id else if s.name != "" then s.name else "";
    var nameTokens := TokenSet(name);
    var descTokens := TokenSet(s.description);
    var pathTokens := TokenSet(s.path);
    ghost var f := Fields(nameTokens, descTokens, pathTokens);
    score := 0;
    for i := 0 to |tokens|
      invariant score == LexicalScore(tokens[..i], f)
    {
      var token := tokens[i];
      ghost var before := score;
      if token in nameTokens || token in pathTokens {
        score := score + 3;
      }
      if token in descTokens {
        score := score + 1;
      }
      assert score == before + TokenPoints(token, f);
      LexicalSnoc(tokens, i, f);
    }
    assert tokens[..|tokens|] == tokens;
    assert f == FieldsOf(s);
    if name in bundle {
      score := score + 5;
    }
    var boost := if name in feedback then Some(feedback[name]) else None;
    if boost.Some? && Numeric(boost.value).Some? {
      score := score + Numeric(boost.value).value;
    }
  }

  // ---------------------------------------------------------------------------
  // Lemmas
  // ---------------------------------------------------------------------------

  /** One more token adds its points. */
  lemma LexicalSnoc(tokens: seq<string>, i: int, f: Fields)
    requires 0 <= i < |tokens|
    ensures LexicalScore(tokens[..i + 1], f) == LexicalScore(tokens[..i], f) + TokenPoints(tokens[i], f)
  {
    LexicalAppend(tokens[..i], [tokens[i]], f);
    assert tokens[..i + 1] == tokens[..i] + [tokens[i]];
  }

  /** The token score of a concatenation is the sum of the parts. */
  lemma {:induction false} LexicalAppend(a: seq<string>, b: seq<string>, f: Fields)
    ensures LexicalScore(a + b, f) == LexicalScore(a, f) + LexicalScore(b, f)
    decreases |a|
  {
    if a == [] {
      assert a + b == b;
    } else {
      assert (a + b)[1..] == a[1..] + b;
      LexicalAppend(a[1..], b, f);
    }
  }

  /** Appending a token to the task adds exactly 0, 1, 3 or 4 to every record's
      score, so it never lowers one; a token that is one of the record's name
      tokens adds at least 3. */
  lemma AppendToken(s: Skill, tokens: seq<string>, t: string, feedback: map<string, Value>, bundle: set<string>)
    ensures var d := Score(s, tokens + [t], feedback, bundle) - Score(s, tokens, feedback, bundle);
      d == 0 || d == 1 || d == 3 || d == 4
    ensures Score(s, tokens + [t], feedback, bundle) >= Score(s, tokens, feedback, bundle)
    ensures t in Tokenize(Identifier(s)) ==>
      Score(s, tokens + [t], feedback, bundle) >= Score(s, tokens, feedback, bundle) + NamePathPoints
  {
    LexicalAppend(tokens, [t], FieldsOf(s));
    assert [t][1..] == [];
  }

  /** Repeated task tokens count once per occurrence: a token given twice adds
      twice what it adds once. */
  lemma DuplicateTokens(s: Skill, tokens: seq<string>, t: string, feedback: map<string, Value>, bundle: set<string>)
    ensures Score(s, tokens + [t, t], feedback, bundle) - Score(s, tokens, feedback, bundle)
         == 2 * (Score(s, tokens + [t], feedback, bundle) - Score(s, tokens, feedback, bundle))
  {
    var f := FieldsOf(s);
    LexicalAppend(tokens, [t, t], f);
    LexicalAppend(tokens, [t], f);
    assert [t, t][1..] == [t];
    assert [t][1..] == [];
  }

  /** The bundle adds exactly 5, and only to the record whose identifier it
      holds. */
  lemma BundleBoostExact(s: Skill, tokens: seq<string>, feedback: map<string, Value>, bundle: set<string>)
    ensures Score(s, tokens, feedback, bundle + {Identifier(s)})
         == Score(s, tokens, feedback, bundle - {Identifier(s)}) + BundleBoost
    ensures Score(s, tokens, feedback, bundle)
         == Score(s, tokens, feedback, {}) + (if Identifier(s) in bundle then BundleBoost else 0)
  {
  }

  /** The stored feedback counts only when it is a number: a missing or
      non-numeric entry scores as if there were no feedback at all, a numeric one
      adds its value. */
  lemma FeedbackOnlyWhenNumeric(s: Skill, tokens: seq<string>, feedback: map<string, Value>, bundle: set<string>)
    ensures Identifier(s) !in feedback || Numeric(feedback[Identifier(s)]).None? ==>
      Score(s, tokens, feedback, bundle) == Score(s, tokens, map[], bundle)
    ensures Identifier(s) in feedback && Numeric(feedback[Identifier(s)]).Some? ==>
      Score(s, tokens, feedback, bundle)
        == Score(s, tokens, map[], bundle) + Numeric(feedback[Identifier(s)]).value
  {
  }

  /** With a non-negative bias the score is never negative. */
  lemma ScoreNonNegative(s: Skill, tokens: seq<string>, feedback: map<string, Value>, bundle: set<string>)
    requires Bias(feedback, Identifier(s)) >= 0
    ensures Score(s, tokens, feedback, bundle) >= 0
  {
  }
}
