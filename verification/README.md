# Skill router — a Dafny model

The skill router reads a free-text task and picks up to three catalogued
skills that best match it (none for an empty catalog). It prints those skills as a line of `/name`
commands, followed by the task. The logic lives in `tools/skill_router.py`.

1. Text is lower-cased. Every run of characters outside `[a-z0-9]` becomes one
   space, and the result is split into tokens.
2. Each catalog record gets a score:
   - +3 per task-token occurrence found among its name or path tokens;
   - +1 per occurrence found among its description tokens;
   - a flat +5 when the active bundle lists the record;
   - the stored feedback bias, when that is a number.
3. Records are ranked by a stable sort on descending score.
4. Records are admitted in rank order, up to the requested count, while their
   score is above 0 and reaches `max(2, ⌊70% of the top score⌋)`. The source
   computes the 70% in floating point, which gives one less for some top
   scores (see Findings); the model uses the exact rule.
5. When nothing is admitted, the fallback is `brainstorming` if the catalog
   has a record with that `id`, else the top-ranked record.
6. A run may also record positive feedback. It adds 2 to each named skill's
   bias, which changes the scores of later runs, not the current one.

The model has one module per concern, each in its own file:

| file | module | what it holds |
|---|---|---|
| `wrappers.dfy` | `Wrappers` | `Option` and `Result` |
| `json.dfy` | `Json` | decoded JSON values: the index document and the feedback store |
| `text.dfy` | `Text` | `normalize` and `tokenize`; the `str.strip()` and `str.split()` they rely on; `Words`, an independent definition of the same tokens |
| `catalog.dfy` | `Catalog` | the index shapes `load_index` accepts and how records are read |
| `scoring.dfy` | `Scoring` | `score_skill` |
| `ranking.dfy` | `Ranking` | the stable descending sort, and why its result is unique |
| `selection.dfy` | `Selection` | `pick_skills`: threshold, admission loop, fallback |
| `feedback.dfy` | `Feedback` | the feedback increment |
| `router.dfy` | `Router` | the remaining pure parts of `main` (listed below) |
| `float_rule.dfy` | `FloatRule` | the threshold as the source computes it in floating point (see Findings) |
| `scenarios.dfy` | `Scenarios` | a worked example, computed end to end |

The parts of `main` in `Router` are:

- the `BUNDLES` table;
- the `--max` clamp;
- the task text;
- recording feedback after the pick;
- the printed output.

`Router` also holds `normalize_choice`, the helper the interactive intake
(`run_intake`) uses to read each answer; the intake itself is left out.

The index document and the feedback store come in as decoded values. The
routing step returns a result value instead of printing or exiting.

## Model

| member | source | states |
|---|---|---|
| Text.Substitute | tools/skill_router.py:29 | the shape of the result: only `[a-z0-9]` and single spaces, never two spaces in a row; empty exactly when the input is; starts with a space exactly when the input starts outside `[a-z0-9]` (its content is stated by `Text.SplitSubstitute`, its last character by `Text.SubstituteLast`) |
| Text.SplitSubstitute | tools/skill_router.py:29 | the word runs survive in order: splitting the substituted text gives exactly the maximal `[a-z0-9]` runs of the input, which `Words` defines separately |
| Text.SubstituteLast | tools/skill_router.py:29 | the substituted text ends with a space exactly when the input ends outside `[a-z0-9]` |
| Text.Normalize | tools/skill_router.py:27-30 | models `normalize`: lower-case, substitute, strip; `Text.NormalizeCanonical` and `Text.NormalizeIdempotent` state what it yields |
| Text.Tokenize | tools/skill_router.py:33-34 | models `tokenize`; `Text.TokenizeIsWords` proves it equals the maximal `[a-z0-9]` runs of the lower-cased text |
| Text.StripRemovesWhitespace | tools/skill_router.py:30 | `strip()` removes whitespace and nothing else: the result is the slice of the input between a whitespace prefix and a whitespace suffix, and it neither starts nor ends with whitespace |
| Text.StripPadded | tools/skill_router.py:30 | whitespace of any length added at either end does not change the stripped result |
| Text.TokenizeIsWords | tools/skill_router.py:27-34 | `tokenize(t)` equals the maximal `[a-z0-9]` runs of the lower-cased text, which `Words` defines separately; every token is non-empty and made of `[a-z0-9]` |
| Text.NormalizeCanonical | tools/skill_router.py:27-30 | `normalize` yields word characters separated by single spaces, with none at either end |
| Text.NormalizeIdempotent | tools/skill_router.py:27-34 | `normalize(normalize(t)) == normalize(t)` and `tokenize(normalize(t)) == tokenize(t)` |
| Text.TokenizeJoined | tools/skill_router.py:33-34 | a text whose lower-case form is non-empty words joined by one non-word character tokenizes to exactly those words |
| Text.SplitJoin | tools/skill_router.py:253 | splitting a space-joined list on the space gives the list back when no part holds a space |
| Catalog.CatalogOf | tools/skill_router.py:40-44 | an object with `"skills"` gives that value; a list gives itself; every other document gives `[]` |
| Catalog.CatalogRoundTrip | tools/skill_router.py:40-44 | a record list written bare or as `{"skills": list}` reads back as the same list; an object without `"skills"` reads as the empty catalog |
| Catalog.FieldText | tools/skill_router.py:68-69 | `get(key) or ""`: an absent or falsy field reads as ""; a string reads as itself; it fails exactly when the field is a truthy non-string |
| Catalog.DecodeSkill | tools/skill_router.py:67-69 | every field of a read record is the `FieldText` of the object, and `name` counts only when `id` is empty; a record reads exactly when it is an object whose `id`, description and path are readable and, when `id` is empty, whose `name` is readable too, so a record without `id` is read by its `name`, or as "" when it has neither |
| Catalog.DecodeAll | tools/skill_router.py:92-94 | the catalog reads exactly when every record does, with the same length, record by record |
| Catalog.DecodeSkills | tools/skill_router.py:92-94 | a list is read record by record; an empty object or string is the empty catalog; a non-empty one, null, a boolean or a number cannot be iterated as records |
| Scoring.Identifier | tools/skill_router.py:67 | the identifier is `id` if non-empty, else `name`; it is "" exactly when both are empty |
| Scoring.TokenPoints | tools/skill_router.py:76-79 | one token occurrence adds 0, 1, 3 or 4; at least 3 exactly when it is a name or path token; 1 or 4 exactly when it is a description token |
| Scoring.LexicalScore | tools/skill_router.py:74-79 | the token part of a score lies between 0 and 4 per task token |
| Scoring.ScoreSkill | tools/skill_router.py:66-87 | the scoring loop returns the identifier and the score defined by `Score` |
| Scoring.Score | tools/skill_router.py:66-87 | the score `score_skill` returns; the lemmas `Scoring.AppendToken`, `Scoring.DuplicateTokens`, `Scoring.BundleBoostExact`, `Scoring.FeedbackOnlyWhenNumeric` and `Scoring.ScoreNonNegative` state its parts |
| Scoring.AppendToken | tools/skill_router.py:74-79 | one more task token changes every record's score by exactly 0, 1, 3 or 4, so never lowers it; a token of the record's own identifier adds at least 3 |
| Scoring.DuplicateTokens | tools/skill_router.py:74-79 | a token given twice adds twice what it adds once, because occurrences are not deduplicated |
| Scoring.BundleBoostExact | tools/skill_router.py:81-82 | the bundle adds exactly 5, and only to the record whose identifier it lists |
| Scoring.FeedbackOnlyWhenNumeric | tools/skill_router.py:84-86 | a missing or non-numeric stored bias scores as no feedback; a numeric one adds exactly its value |
| Scoring.ScoreNonNegative | tools/skill_router.py:66-87 | with a non-negative bias the score is at least 0 |
| Ranking.Insert | tools/skill_router.py:97 | inserting into a descending list keeps it descending and adds exactly the new entry |
| Ranking.Rank | tools/skill_router.py:97 | the ranking is a permutation of the scored pairs, in non-increasing score order |
| Ranking.RankStable | tools/skill_router.py:97 | for every score, the entries with that score keep their catalog order |
| Ranking.StableSortUnique | tools/skill_router.py:97 | two descending lists with the same entries per score are equal |
| Ranking.RankUnique | tools/skill_router.py:97 | every stable descending sort of the pairs equals `Rank` |
| Selection.ScoreRecords | tools/skill_router.py:92-95 | the loop yields one pair per record, in catalog order, holding that record's score and identifier |
| Selection.Threshold | tools/skill_router.py:99-107 | the threshold is at least 2, and is the integer part of seven tenths of the top score whenever that exceeds 2 |
| Selection.AdmitsAtSeventyPercent | tools/skill_router.py:107 | a score passes exactly when it is at least 2 and one more than it exceeds 70% of the top score |
| Selection.Admit | tools/skill_router.py:100-107 | the admission loop, with its `break` and `continue`, keeps the first `min(max, k)` ranked names, where `k` entries reach the threshold |
| Selection.AdmittedByThreshold | tools/skill_router.py:100-107 | admitted picks are the leading ranked names, each at or above the threshold and above 0; if fewer than the cap were admitted, every later entry is below the threshold |
| Selection.TopRankedFirst | tools/skill_router.py:98-107 | with a top score of at least 2 and a cap of at least 1, the top-ranked identifier is the first pick |
| Selection.FindDefault | tools/skill_router.py:110 | the search finds `brainstorming` exactly when some record's `id` is `brainstorming` |
| Selection.Fallback | tools/skill_router.py:109-114 | with nothing admitted: `["brainstorming"]` if some `id` is `brainstorming`, else the first ranked identifier, else `[]` for an empty catalog |
| Selection.NoFallbackWhenAdmitted | tools/skill_router.py:109 | when something is admitted, the result is the admitted list |
| Selection.Choose | tools/skill_router.py:98-116 | from a ranked list: at most `max(1, max_skills)` picks, none exactly when nothing was ranked and no record has the `brainstorming` id |
| Selection.Pick | tools/skill_router.py:90-116 | at most `max(1, max_skills)` picks, none exactly when the catalog is empty |
| Selection.PickSkills | tools/skill_router.py:90-116 | the procedure computes `Pick` |
| Selection.PicksFromCatalog | tools/skill_router.py:90-116 | every pick is the identifier of some catalog record |
| Selection.RankedFromCatalog | tools/skill_router.py:92-97 | every ranked name is the identifier of some catalog record |
| Feedback.RecordSucceeds | tools/skill_router.py:247-248 | the update succeeds exactly when every listed name is missing or holds a number |
| Feedback.Record | tools/skill_router.py:247-248 | the update loop; when it fails, the failing name is listed and held a non-number before the update |
| Feedback.RecordCounts | tools/skill_router.py:247-248 | each occurrence of a name adds exactly 2 (a missing key starts from 0); listed names become keys; every other entry is unchanged |
| Feedback.RecordRaisesBias | tools/skill_router.py:247-248 | a name's numeric bias rises by 2 per listing, and is unchanged when not listed |
| Feedback.RecordTwice | tools/skill_router.py:247-248 | a name given twice gains 4 |
| Feedback.RecordRaisesScore | tools/skill_router.py:246-249 | after recording, a later run scores each record 2 higher per listing of its identifier, and otherwise the same |
| Router.BundleSet | tools/skill_router.py:243 | the boosted identifiers are exactly those the named bundle lists in `BUNDLES`, and none for an absent or unknown bundle |
| Router.ClampMax | tools/skill_router.py:208 | the cap lies between 1 and 3; a request in range is kept, one below becomes 1, one above becomes 3 |
| Router.NormalizeChoice | tools/skill_router.py:119-125 | the answer is the default or an option value; a non-empty stripped, lower-cased key in the options selects its option; an empty or unknown answer gives the default |
| Router.NormalizeChoiceCanonical | tools/skill_router.py:120 | whitespace of any length at either end, and upper case, do not change the chosen option |
| Router.StripLower | tools/skill_router.py:120 | stripping and lower-casing commute |
| Router.RenderParse | tools/skill_router.py:251-255 | a non-empty pick list and the task are rendered as a `/a /b` line, a newline and the task; that text reads back as the picks and the task when no name contains a space or newline |
| Router.RenderOutput | tools/skill_router.py:251-255 | models the printed text; `Router.RenderParse` shows it reads back as the picks and the task |
| Router.SlashLineReadsBack | tools/skill_router.py:253 | the `/a /b` line of names without spaces or newlines has no newline and splits back into those names |
| Router.RouteNeedsTask | tools/skill_router.py:235-237 | a run fails with "task text is required" exactly when the joined, stripped task is empty |
| Router.TaskText | tools/skill_router.py:209 | models `" ".join(args.task).strip()`; `Router.RouteNeedsTask` states that an empty one stops the run |
| Router.Select | tools/skill_router.py:208-244 | the selection part of `main`; `Router.SelectErrors` and `Router.SelectShape` state when it succeeds and what it picks |
| Router.Route | tools/skill_router.py:206-260 | the routing part of `main`; `Router.RouteShape`, `Router.RouteBounds`, `Router.RouteNeedsTask`, `Router.RouteUnreadable` and `Router.RouteNonNumeric` state its outcomes |
| Router.SelectErrors | tools/skill_router.py:235-244 | a selection succeeds exactly for a non-empty task and a readable catalog, and fails on the catalog exactly when the task is non-empty and the catalog cannot be read |
| Router.RouteShape | tools/skill_router.py:243-255 | a successful run prints the picks made from the store as loaded; it writes the store back exactly when feedback was given, and then the written store is the recorded update; otherwise the store is unchanged |
| Router.RouteBounds | tools/skill_router.py:208-255 | a successful run picks at most the clamped `--max` (so at most 3), none exactly for an empty catalog, and writes back the recorded update exactly when feedback was given |
| Router.RouteUnreadable | tools/skill_router.py:235-244 | a run fails on the catalog exactly when the task is non-empty and the catalog cannot be read |
| Router.RouteNonNumeric | tools/skill_router.py:244-249 | a run fails on the feedback exactly when the task is non-empty, the catalog reads and recording the names fails, and it reports the entry recording stops at |
| Router.RouteFeedbackLater | tools/skill_router.py:244-249 | the feedback given in a run does not change that run's picks or output |
| Router.RouteOutputReadsBack | tools/skill_router.py:251-255 | the printed text of a run with picks reads back as those picks and the task |
| FloatRule.FloatThreshold | tools/skill_router.py:107 | the threshold as computed in binary64, at least 2, and exactly 2 for a top score of 0 or less |
| FloatRule.FloatThresholdAt90 | tools/skill_router.py:107 | for a top score of 90 the computed threshold is 62, while seven tenths of 90 is 63 |
| FloatRule.AdmitsBelowSeventyPercent | tools/skill_router.py:100-107 | with scores 90 and 62 the source admits both records although 62 is below 70% of 90; the exact rule admits only the first |
| Scenarios.RestApiScenario | tools/skill_router.py:90-116 | for the task "design a REST API for search" against `api-patterns` ("REST API design") and `seo-audit` ("search engine optimization"), the scores are 6 and 1, and only `api-patterns` is picked |

### Behaviour of the code worth knowing

- Repeated task tokens count once per occurrence: the loop at line 75 runs
  over the token list, not a set (`Scoring.DuplicateTokens`).
- A record with neither `id` nor `name` is scored under the identifier ""
  (line 67) and can be picked like any other (line 114).
- For the task "design a REST API for search" against `api-patterns`
  ("REST API design") and `seo-audit` ("search engine optimization"), the
  scores are 6 and 1 and the threshold is 4, so only `api-patterns` is picked
  (`Scenarios.RestApiScenario`).

## Left out

- The file I/O is not modelled, because the model works on decoded values:
  - reading and decoding the index file, and checking that it exists
    (tools/skill_router.py:37-39, 211-214);
  - `load_feedback` and `save_feedback` (tools/skill_router.py:47-63).

  The index and the store come in as `Json.Value`s. `load_feedback`'s fallback
  to `{}` is the caller's concern.
- The `--verify` report (tools/skill_router.py:217-233) is not modelled: it
  walks the file system.
- The interactive intake (`run_intake`, `--intake`) is not modelled: it reads
  standard input.
- The clipboard copy is not modelled: it runs a subprocess.
- `argparse` is not modelled. `Router.Args` holds the parsed values, and an
  empty `feedback` stands for an absent `--feedback`.
- Floating-point feedback values and index numbers are not modelled. JSON
  numbers are integers here, and a boolean bias counts as 1 or 0, as in Python.
- Only ASCII case mapping and ASCII whitespace are modelled. Python's
  `str.lower()` maps a few non-ASCII characters to ASCII letters, such as the
  Kelvin sign to `k`. `str.strip()` and `str.split()` also treat Unicode
  spaces as whitespace.
- A catalog record or value that makes the source raise is modelled as
  `Router.UnreadableCatalog` or `Router.NonNumericFeedback`. The traceback
  itself is not modelled.
- FloatRule.FloatThreshold: defined only for top scores up to 2^53. Above that
  bound the conversion of the integer to a double rounds as well. Only the
  disagreement at 90 is proved, not a general bound between the two
  thresholds.
- Concurrent runs racing on the feedback file are not modelled.
- `Router.ParseOutput` and `Router.ParseSlashLine` are not part of the
  source. They are the reader against which the rendered output is shown to
  be unambiguous.

## Findings

| source | as written | input that shows it | evidently intended | confidence | as-written member | corrected member |
|---|---|---|---|---|---|---|
| tools/skill_router.py:107 | `int(top_score * RELATIVE_THRESHOLD)` multiplies by the binary64 value nearest 0.7, which is slightly below 0.7, then truncates | top score 90 and a second record scoring 62, with `--max 2`: `90 * 0.7` is 62.99999999999999, so the threshold is 62 and 62 (below 70% of 90) is admitted | the threshold is the integer part of exactly seven tenths of the top score (63 for 90), so only the first record is admitted | medium; not executed | FloatRule.AdmitsBelowSeventyPercent | Selection.Threshold |
