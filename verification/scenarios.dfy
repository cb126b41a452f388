/** The worked example of the router: a two-record catalog and the task
    "design a REST API for search", with no bundle and no feedback.

    Each fact about a string literal (its lower case, its tokens, a join of
    literal words) is a lemma of its own whose literals arrive as parameters
    fixed by `requires`: Dafny evaluates functions on literals eagerly, and
    keeping each such fact in a small context keeps each proof small.
    `RestApiScenario` only chains them. */
module Scenarios {
  import opened Wrappers
  import opened Json
  import opened Text
  import opened Catalog
  import opened Scoring
  import opened Ranking
  import opened Selection

  lemma LowerTask(task: string)
    requires task == "design a REST API for search"
    ensures Lower(task) == "design a rest api for search"
  {
  }

  lemma JoinTask(ws: seq<string>)
    requires ws == ["design", "a", "rest", "api", "for", "search"]
    ensures Join(ws, ' ') == "design a rest api for search"
  {
    JoinTaskTail(ws[3..]);
    JoinCons(ws[2], ws[3..], ' ');
    assert ws[2..] == [ws[2]] + ws[3..];
    JoinCons(ws[1], ws[2..], ' ');
    assert ws[1..] == [ws[1]] + ws[2..];
    JoinCons(ws[0], ws[1..], ' ');
    assert ws == [ws[0]] + ws[1..];
  }

  lemma JoinTaskTail(ws: seq<string>)
    requires ws == ["api", "for", "search"]
    ensures Join(ws, ' ') == "api for search"
  {
    Join3(ws, ' ');
  }

  /** Joining three parts puts the separator between neighbours. */
  lemma Join3(ws: seq<string>, sep: char)
    requires |ws| == 3
    ensures Join(ws, sep) == ws[0] + [sep] + ws[1] + [sep] + ws[2]
  {
    assert ws[1..][1..] == [ws[2]];
    assert Join(ws[1..], sep) == ws[1] + [sep] + ws[2];
    assert Join(ws, sep) == ws[0] + [sep] + (ws[1] + [sep] + ws[2]);
  }

  /** Joining a part in front of a non-empty list. */
  lemma JoinCons(w: string, rest: seq<string>, sep: char)
    requires rest != []
    ensures Join([w] + rest, sep) == w + [sep] + Join(rest, sep)
  {
    assert ([w] + rest)[1..] == rest;
  }

  /** Lower-case text is its own lower case. */
  lemma LowerNoUpper(t: string)
    requires forall i :: 0 <= i < |t| ==> !('A' <= t[i] <= 'Z')
    ensures Lower(t) == t
  {
  }

  lemma TaskWords(ws: seq<string>)
    requires ws == ["design", "a", "rest", "api", "for", "search"]
    ensures forall i :: 0 <= i < |ws| ==> ws[i] != [] && IsWord(ws[i])
  {
  }

  lemma TaskTokens(task: string, ws: seq<string>)
    requires task == "design a REST API for search"
    requires ws == ["design", "a", "rest", "api", "for", "search"]
    ensures Tokenize(task) == ws
  {
    LowerTask(task);
    JoinTask(ws);
    TaskWords(ws);
    TokenizeJoined(task, ws, ' ');
  }

  lemma ApiPatternsTokens(t: string, ws: seq<string>)
    requires t == "api-patterns" && ws == ["api", "patterns"]
    ensures Tokenize(t) == ws
  {
    assert Lower(t) == t;
    assert ws[1..][1..] == [];
    assert Join(ws, '-') == t;
    TokenizeJoined(t, ws, '-');
  }

  lemma SeoAuditTokens(t: string, ws: seq<string>)
    requires t == "seo-audit" && ws == ["seo", "audit"]
    ensures Tokenize(t) == ws
  {
    assert Lower(t) == t;
    assert ws[1..][1..] == [];
    assert Join(ws, '-') == t;
    TokenizeJoined(t, ws, '-');
  }

  lemma RestApiDesignTokens(t: string, ws: seq<string>)
    requires t == "REST API design" && ws == ["rest", "api", "design"]
    ensures Tokenize(t) == ws
  {
    RestApiDesignLower(t, "rest api design");
    Join3(ws, ' ');
    RestApiDesignJoin(ws[0], ws[1], ws[2], "rest api design");
    TokenizeJoined(t, ws, ' ');
  }

  lemma RestApiDesignLower(t: string, l: string)
    requires t == "REST API design" && l == "rest api design"
    ensures Lower(t) == l
  {
  }

  lemma RestApiDesignJoin(a: string, b: string, c: string, t: string)
    requires a == "rest" && b == "api" && c == "design"
    requires t == "rest api design"
    ensures a + [' '] + b + [' '] + c == t
  {
  }

  lemma SearchEngineTokens(t: string, ws: seq<string>)
    requires t == "search engine optimization" && ws == ["search", "engine", "optimization"]
    ensures Tokenize(t) == ws
  {
    LowerNoUpper(t);
    Join3(ws, ' ');
    SearchEngineJoin(ws[0], ws[1], ws[2], t);
    TokenizeJoined(t, ws, ' ');
  }

  lemma SearchEngineJoin(a: string, b: string, c: string, t: string)
    requires a == "search" && b == "engine" && c == "optimization"
    requires t == "search engine optimization"
    ensures a + [' '] + b + [' '] + c == t
  {
  }

  lemma NoTokens(t: string)
    requires t == ""
    ensures Tokenize(t) == []
  {
    TokenizeIsWords(t);
    assert DropSeparators([]) == [];
  }

  lemma ApiPatternsLexical(f: Fields, tokens: seq<string>)
    requires f == Fields({"api", "patterns"}, {"rest", "api", "design"}, {})
    requires tokens == ["design", "a", "rest", "api", "for", "search"]
    ensures LexicalScore(tokens, f) == 6
  {
    assert LexicalScore(tokens[5..], f) == 0;
    assert tokens[4..][1..] == tokens[5..];
    assert LexicalScore(tokens[4..], f) == 0;
    assert tokens[3..][1..] == tokens[4..];
    assert LexicalScore(tokens[3..], f) == 4;
    assert tokens[2..][1..] == tokens[3..];
    assert LexicalScore(tokens[2..], f) == 5;
    assert tokens[1..][1..] == tokens[2..];
    assert LexicalScore(tokens[1..], f) == 5;
  }

  lemma SeoAuditLexical(f: Fields, tokens: seq<string>)
    requires f == Fields({"seo", "audit"}, {"search", "engine", "optimization"}, {})
    requires tokens == ["design", "a", "rest", "api", "for", "search"]
    ensures LexicalScore(tokens, f) == 1
  {
    assert LexicalScore(tokens[5..], f) == 1;
    assert tokens[4..][1..] == tokens[5..];
    assert LexicalScore(tokens[4..], f) == 1;
    assert tokens[3..][1..] == tokens[4..];
    assert LexicalScore(tokens[3..], f) == 1;
    assert tokens[2..][1..] == tokens[3..];
    assert LexicalScore(tokens[2..], f) == 1;
    assert tokens[1..][1..] == tokens[2..];
    assert LexicalScore(tokens[1..], f) == 1;
  }

  lemma TokenSetOf(t: string, ws: seq<string>)
    requires Tokenize(t) == ws
    ensures TokenSet(t) == set w | w in ws
  {
  }

  lemma SetOfTwo(a: string, b: string)
    ensures (set w | w in [a, b]) == {a, b}
  {
  }

  lemma SetOfThree(a: string, b: string, c: string)
    ensures (set w | w in [a, b, c]) == {a, b, c}
  {
  }

  lemma ApiPatternsFields(s: Skill)
    requires s == Skill("api-patterns", "", "REST API design", "")
    ensures FieldsOf(s) == Fields({"api", "patterns"}, {"rest", "api", "design"}, {})
  {
    ApiPatternsTokens(s.id, ["api", "patterns"]);
    TokenSetOf(s.id, ["api", "patterns"]);
    SetOfTwo("api", "patterns");
    RestApiDesignTokens(s.description, ["rest", "api", "design"]);
    TokenSetOf(s.description, ["rest", "api", "design"]);
    SetOfThree("rest", "api", "design");
    NoTokens(s.path);
    TokenSetOf(s.path, []);
  }

  lemma SeoAuditFields(s: Skill)
    requires s == Skill("seo-audit", "", "search engine optimization", "")
    ensures FieldsOf(s) == Fields({"seo", "audit"}, {"search", "engine", "optimization"}, {})
  {
    SeoAuditTokens(s.id, ["seo", "audit"]);
    TokenSetOf(s.id, ["seo", "audit"]);
    SetOfTwo("seo", "audit");
    SearchEngineTokens(s.description, ["search", "engine", "optimization"]);
    TokenSetOf(s.description, ["search", "engine", "optimization"]);
    SetOfThree("search", "engine", "optimization");
    NoTokens(s.path);
    TokenSetOf(s.path, []);
  }

  lemma RankPair(scored: seq<Scored>)
    requires scored == [Scored(6, "api-patterns"), Scored(1, "seo-audit")]
    ensures Rank(scored) == scored
    ensures Admitted(Rank(scored), 2) == ["api-patterns"]
  {
    assert scored[..1] == [Scored(6, "api-patterns")];
    assert Rank(scored[..1]) == [Scored(6, "api-patterns")];
    assert Threshold(6) == 4;
    assert scored[1..][1..] == [];
    assert CountAtLeast(scored, 4) == 1;
    assert scored[..1] == [Scored(6, "api-patterns")];
  }

  lemma ApiPatternsScore(s: Skill, tokens: seq<string>)
    requires s == Skill("api-patterns", "", "REST API design", "")
    requires tokens == ["design", "a", "rest", "api", "for", "search"]
    ensures Score(s, tokens, map[], {}) == 6
  {
    ApiPatternsFields(s);
    ApiPatternsLexical(FieldsOf(s), tokens);
  }

  lemma SeoAuditScore(s: Skill, tokens: seq<string>)
    requires s == Skill("seo-audit", "", "search engine optimization", "")
    requires tokens == ["design", "a", "rest", "api", "for", "search"]
    ensures Score(s, tokens, map[], {}) == 1
  {
    SeoAuditFields(s);
    SeoAuditLexical(FieldsOf(s), tokens);
  }

  lemma ScoreAllPair(a: Skill, b: Skill, tokens: seq<string>, sa: int, sb: int)
    requires Score(a, tokens, map[], {}) == sa && Score(b, tokens, map[], {}) == sb
    ensures ScoreAll([a, b], tokens, map[], {}) == [Scored(sa, Identifier(a)), Scored(sb, Identifier(b))]
  {
  }

  lemma ScoresOf(skills: seq<Skill>, tokens: seq<string>)
    requires skills == [Skill("api-patterns", "", "REST API design", ""),
                        Skill("seo-audit", "", "search engine optimization", "")]
    requires tokens == ["design", "a", "rest", "api", "for", "search"]
    ensures ScoreAll(skills, tokens, map[], {}) == [Scored(6, "api-patterns"), Scored(1, "seo-audit")]
  {
    ApiPatternsScore(skills[0], tokens);
    SeoAuditScore(skills[1], tokens);
    ScoreAllPair(skills[0], skills[1], tokens, 6, 1);
  }

  /** The task "design a REST API for search" against a catalog of
      `api-patterns` ("REST API design") and `seo-audit` ("search engine
      optimization"): they score 6 and 1, the threshold is 4 (70% of 6,
      floored), so only `api-patterns` is picked. */
  lemma RestApiScenario(skills: seq<Skill>, task: string)
    requires skills == [Skill("api-patterns", "", "REST API design", ""),
                        Skill("seo-audit", "", "search engine optimization", "")]
    requires task == "design a REST API for search"
    ensures Ranked(skills, task, map[], {}) == [Scored(6, "api-patterns"), Scored(1, "seo-audit")]
    ensures Pick(skills, task, 2, map[], {}) == ["api-patterns"]
  {
    var tokens := ["design", "a", "rest", "api", "for", "search"];
    TaskTokens(task, tokens);
    ScoresOf(skills, tokens);
    RankPair(ScoreAll(skills, tokens, map[], {}));
  }
}
