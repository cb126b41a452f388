/** The command's decision logic around the selection (tools/skill_router.py,
    `BUNDLES` and `main`): bundle lookup, the `--max` clamp, task assembly,
    feedback recording after the pick, and the rendered output. It also holds
    `normalize_choice`, the answer reader of the interactive intake. Reading
    and writing files, the clipboard and the intake itself are not part of this
    model; the decoded index and feedback documents come in as values. */
module Router {
  import opened Wrappers
  import opened Json
  import opened Text
  import opened Catalog
  import opened Selection
  import opened Feedback

  /** MAX_SKILLS_CAP */
  const MaxSkillsCap := 3

  /** BUNDLES */
  const Bundles: map<string, seq<string>> := map[
    "frontend" := ["frontend-design", "ui-ux-pro-max", "react-best-practices"],
    "backend" := ["backend-dev-guidelines", "api-patterns", "database-design"],
    "marketing" := ["copywriting", "page-cro", "seo-audit"],
    "security" := ["vulnerability-scanner", "security-review", "api-security-best-practices"],
    "product" := ["ai-product", "product-requirements", "brainstorming"]
  ]

  /** `set(BUNDLES.get(args.bundle or "", []))`: the identifiers the chosen
      bundle boosts, none for an absent or unknown bundle. */
  function BundleSet(bundle: Option<string>): (r: set<string>)
    ensures bundle.GetOr("") !in Bundles ==> r == {}
    ensures bundle.GetOr("") in Bundles ==>
      forall id :: id in r <==> id in Bundles[bundle.GetOr("")]
  {
    var name := bundle.GetOr("");
    if name in Bundles then set id | id in Bundles[name] else {}
  }

  /** `max(1, min(args.max, MAX_SKILLS_CAP))` */
  function ClampMax(requested: int): (r: int)
    ensures 1 <= r <= MaxSkillsCap
    ensures 1 <= requested <= MaxSkillsCap ==> r == requested
    ensures requested < 1 ==> r == 1
    ensures requested > MaxSkillsCap ==> r == MaxSkillsCap
  {
    Max(1, Min(requested, MaxSkillsCap))
  }

  /** `normalize_choice`: the answer, stripped and lower-cased, looked up among
      the options; an empty or unknown answer gives the default. */
  function NormalizeChoice(value: string, options: map<string, string>, default: string): (r: string)
    ensures r == default || r in options.Values
    ensures Lower(Strip(value)) in options && Lower(Strip(value)) != [] ==> r == options[Lower(Strip(value))]
    ensures Lower(Strip(value)) == [] || Lower(Strip(value)) !in options ==> r == default
  {
    var v := Lower(Strip(value));
    if v == [] then default
    else if v in options then options[v]
    else default
  }

  /** " ".join("/" + name for name in picked) */
  function SlashLine(picked: seq<string>): string {
    Join(seq(|picked|, i requires 0 <= i < |picked| => "/" + picked[i]), ' ')
  }

  /** The printed text: the slash line when something was picked, then the
      task, joined by a newline. */
  function RenderOutput(picked: seq<string>, task: string): string {
    var lines := (if picked != [] then [SlashLine(picked)] else []) + [task];
    Join(lines, '\n')
  }

  /** Reads a slash line back into names: space-separated words that each
      start with a slash. */
  function ParseSlashLine(line: string): Option<seq<string>> {
    var words := SplitOn(line, ' ');
    if forall k :: 0 <= k < |words| ==> words[k] != [] && words[k][0] == '/' then
      Some(seq(|words|, k requires 0 <= k < |words| && words[k] != [] => words[k][1..]))
    else None
  }

  /** Reads a rendered output back into the picks and the task: the first line
      is a slash line, the rest is the task. */
  function ParseOutput(output: string): Option<(seq<string>, string)> {
    match IndexOf(output, '\n')
    case None => None
    case Some(i) =>
      match ParseSlashLine(output[..i])
      case None => None
      case Some(names) => Some((names, output[i + 1..]))
  }

  /** The command-line arguments the routing reads. An empty `feedback` stands
      for an absent `--feedback`. */
  datatype Args = Args(task: seq<string>, max: int, feedback: seq<string>, bundle: Option<string>)

  /** What one successful run produces: the printed text, the picks, the
      feedback store afterwards and whether it was written back. */
  datatype Outcome = Outcome(output: string, picked: seq<string>, feedback: map<string, Value>, saved: bool)

  datatype RouteError =
    | TaskRequired                     // "Error: task text is required."
    | UnreadableCatalog                // a record the scorer cannot read
    | NonNumericFeedback(name: string) // `feedback.get(name, 0) + 2` fails

  /** `" ".join(args.task).strip()` */
  function TaskText(words: seq<string>): string {
    Strip(Join(words, ' '))
  }

  /** The selection step of `main` (tools/skill_router.py:208-244): the task
      text and the picks, made from the feedback store as loaded. */
  function Select(index: Value, stored: map<string, Value>, words: seq<string>, requested: int, bundle: Option<string>)
    : Result<(string, seq<string>), RouteError>
  {
    var task := TaskText(words);
    if task == [] then Failure(TaskRequired)
    else match DecodeSkills(CatalogOf(index))
      case None => Failure(UnreadableCatalog)
      case Some(skills) => Success((task, Pick(skills, task, ClampMax(requested), stored, BundleSet(bundle))))
  }

  /** The routing part of `main` (tools/skill_router.py:207-256), given the
      decoded index document and the loaded feedback store: select, then record
      the feedback, then render. */
  function Route(index: Value, stored: map<string, Value>, args: Args): Result<Outcome, RouteError> {
    match Select(index, stored, args.task, args.max, args.bundle)
    case Failure(e) => Failure(e)
    case Success((task, picked)) =>
      var output := RenderOutput(picked, task);
      if args.feedback == [] then Success(Outcome(output, picked, stored, false))
      else match Record(stored, args.feedback)
        case Failure(name) => Failure(NonNumericFeedback(name))
        case Success(updated) => Success(Outcome(output, picked, updated, true))
  }

  // ---------------------------------------------------------------------------
  // Lemmas
  // ---------------------------------------------------------------------------

  /** An answer padded with any whitespace, or in upper case, selects the same
      option as the bare lower-case one. */
  lemma NormalizeChoiceCanonical(value: string, p: string, q: string, options: map<string, string>, default: string)
    requires forall i :: 0 <= i < |p| ==> IsSpace(p[i])
    requires forall i :: 0 <= i < |q| ==> IsSpace(q[i])
    ensures NormalizeChoice(p + value + q, options, default) == NormalizeChoice(value, options, default)
    ensures NormalizeChoice(Lower(value), options, default) == NormalizeChoice(value, options, default)
  {
    StripPadded(p, value, q);
    StripLower(value);
    LowerIdempotent(Strip(value));
  }

  lemma {:induction false} TrimLeftLower(v: string)
    ensures TrimLeft(Lower(v)) == Lower(TrimLeft(v))
    decreases |v|
  {
    if v != [] {
      assert Lower(v)[1..] == Lower(v[1..]);
      TrimLeftLower(v[1..]);
    }
  }

  lemma {:induction false} TrimRightLower(v: string)
    ensures TrimRight(Lower(v)) == Lower(TrimRight(v))
    decreases |v|
  {
    if v != [] {
      assert Lower(v)[..|v| - 1] == Lower(v[..|v| - 1]);
      TrimRightLower(v[..|v| - 1]);
    }
  }

  /** Lower-casing and stripping commute: lower-casing turns no character into
      whitespace and no whitespace into anything else. */
  lemma StripLower(v: string)
    ensures Strip(Lower(v)) == Lower(Strip(v))
  {
    TrimLeftLower(v);
    TrimRightLower(TrimLeft(v));
  }

  lemma LowerIdempotent(v: string)
    ensures Lower(Lower(v)) == Lower(v)
  {
  }

  /** The output reads back as the picks and the task whenever something was
      picked and no picked name contains a space or a newline. */
  lemma RenderParse(picked: seq<string>, task: string)
    requires picked != []
    requires forall i :: 0 <= i < |picked| ==> ' ' !in picked[i] && '\n' !in picked[i]
    ensures ParseOutput(RenderOutput(picked, task)) == Some((picked, task))
  {
    var line := SlashLine(picked);
    SlashLineReadsBack(picked);
    RenderTwoLines(picked, task);
    ParseAfterLine(line, task);
  }

  /** With picks, the output is the slash line, a newline, and the task. */
  lemma RenderTwoLines(picked: seq<string>, task: string)
    requires picked != []
    ensures RenderOutput(picked, task) == SlashLine(picked) + ['\n'] + task
  {
    var lines := [SlashLine(picked)] + [task];
    assert lines[1..] == [task];
    assert Join(lines, '\n') == SlashLine(picked) + ['\n'] + Join([task], '\n');
  }

  /** An output whose first line is a readable slash line reads back as that
      line's names and the remaining text. */
  lemma ParseAfterLine(line: string, task: string)
    requires '\n' !in line
    requires ParseSlashLine(line).Some?
    ensures ParseOutput(line + ['\n'] + task) == Some((ParseSlashLine(line).value, task))
  {
    var out := line + ['\n'] + task;
    IndexOfAfter(line, '\n', task);
    assert out[..|line|] == line;
    assert out[|line| + 1..] == task;
  }

  /** A slash line of names without spaces or newlines has no newline and
      reads back as those names. */
  lemma SlashLineReadsBack(picked: seq<string>)
    requires picked != []
    requires forall i :: 0 <= i < |picked| ==> ' ' !in picked[i] && '\n' !in picked[i]
    ensures '\n' !in SlashLine(picked)
    ensures ParseSlashLine(SlashLine(picked)) == Some(picked)
  {
    var slashed := seq(|picked|, i requires 0 <= i < |picked| => "/" + picked[i]);
    forall i | 0 <= i < |slashed|
      ensures ' ' !in slashed[i] && '\n' !in slashed[i]
    {
      assert slashed[i] == ['/'] + picked[i];
    }
    JoinNoChar(slashed, ' ', '\n');
    SplitJoin(slashed, ' ');
    var words := SplitOn(SlashLine(picked), ' ');
    assert words == slashed;
    forall k | 0 <= k < |words|
      ensures words[k] != [] && words[k][0] == '/' && words[k][1..] == picked[k]
    {
      assert words[k] == ['/'] + picked[k];
    }
    var names := seq(|words|, k requires 0 <= k < |words| && words[k] != [] => words[k][1..]);
    assert names == picked;
  }

  lemma {:induction false} JoinNoChar(parts: seq<string>, sep: char, c: char)
    requires sep != c
    requires forall i :: 0 <= i < |parts| ==> c !in parts[i]
    ensures c !in Join(parts, sep)
    decreases |parts|
  {
    if |parts| > 1 {
      JoinNoChar(parts[1..], sep, c);
    }
  }

  /** A successful selection has a non-empty task and a readable catalog, and
      picks from that catalog. */
  lemma SelectShape(index: Value, stored: map<string, Value>, words: seq<string>, requested: int, bundle: Option<string>)
    requires Select(index, stored, words, requested, bundle).Success?
    ensures TaskText(words) != [] && DecodeSkills(CatalogOf(index)).Some?
    ensures Select(index, stored, words, requested, bundle).value
         == (TaskText(words), Pick(DecodeSkills(CatalogOf(index)).value, TaskText(words), ClampMax(requested), stored, BundleSet(bundle)))
  {
  }

  /** A successful run prints the selection, and writes the store back exactly
      when feedback was given: then it holds the recorded update, otherwise it
      is the store as loaded. */
  lemma RouteShape(index: Value, stored: map<string, Value>, args: Args)
    requires Route(index, stored, args).Success?
    ensures Select(index, stored, args.task, args.max, args.bundle).Success?
    ensures var sel := Select(index, stored, args.task, args.max, args.bundle).value;
      var o := Route(index, stored, args).value;
      && o.picked == sel.1
      && o.output == RenderOutput(sel.1, sel.0)
      && (o.saved <==> args.feedback != [])
      && (o.saved ==> Record(stored, args.feedback).Success? && o.feedback == Record(stored, args.feedback).value)
      && (!o.saved ==> o.feedback == stored)
  {
  }

  /** The task is required: a run fails with TaskRequired exactly when the
      joined, stripped task text is empty. */
  lemma RouteNeedsTask(index: Value, stored: map<string, Value>, args: Args)
    ensures Route(index, stored, args) == Failure(TaskRequired) <==> TaskText(args.task) == []
  {
    SelectNeedsTask(index, stored, args.task, args.max, args.bundle);
    RouteSelectError(index, stored, args);
  }

  lemma SelectNeedsTask(index: Value, stored: map<string, Value>, words: seq<string>, requested: int, bundle: Option<string>)
    ensures Select(index, stored, words, requested, bundle) == Failure(TaskRequired) <==> TaskText(words) == []
  {
  }

  /** Recording only ever fails with NonNumericFeedback, so a run fails with
      TaskRequired exactly when its selection does. */
  lemma RouteSelectError(index: Value, stored: map<string, Value>, args: Args)
    ensures Route(index, stored, args) == Failure(TaskRequired)
       <==> Select(index, stored, args.task, args.max, args.bundle) == Failure(TaskRequired)
  {
    var sel := Select(index, stored, args.task, args.max, args.bundle);
    if sel.Success? && args.feedback != [] {
      var task := sel.value.0;
      var picked := sel.value.1;
      match Record(stored, args.feedback)
      case Failure(name) =>
        assert Route(index, stored, args) == Failure(NonNumericFeedback(name));
      case Success(updated) =>
        assert Route(index, stored, args).Success?;
    }
  }

  /** A successful run emits at most the clamped `--max` picks (so at most 3),
      none only for an empty catalog, and writes the store back exactly when
      feedback was given, holding the recorded update. */
  lemma RouteBounds(index: Value, stored: map<string, Value>, args: Args)
    requires Route(index, stored, args).Success?
    ensures var o := Route(index, stored, args).value;
      && |o.picked| <= ClampMax(args.max) <= MaxSkillsCap
      && (o.picked == [] <==> DecodeSkills(CatalogOf(index)) == Some([]))
      && (o.saved <==> args.feedback != [])
      && (o.saved ==> Record(stored, args.feedback).Success? && o.feedback == Record(stored, args.feedback).value)
      && (!o.saved ==> o.feedback == stored)
  {
    RouteShape(index, stored, args);
    SelectShape(index, stored, args.task, args.max, args.bundle);
  }

  /** A run with a task fails with UnreadableCatalog exactly when the catalog
      cannot be read. */
  lemma RouteUnreadable(index: Value, stored: map<string, Value>, args: Args)
    ensures Route(index, stored, args) == Failure(UnreadableCatalog)
       <==> TaskText(args.task) != [] && DecodeSkills(CatalogOf(index)).None?
  {
    SelectErrors(index, stored, args.task, args.max, args.bundle);
    if Select(index, stored, args.task, args.max, args.bundle).Failure? {
      RouteKeepsSelectFailure(index, stored, args);
    } else {
      RouteAfterSelect(index, stored, args);
    }
  }

  /** A run fails with NonNumericFeedback exactly when the selection succeeds
      and recording the given names fails, and it names the same entry. */
  lemma RouteNonNumeric(index: Value, stored: map<string, Value>, args: Args)
    ensures (Route(index, stored, args).Failure? && Route(index, stored, args).error.NonNumericFeedback?)
       <==> TaskText(args.task) != [] && DecodeSkills(CatalogOf(index)).Some? && Record(stored, args.feedback).Failure?
    ensures Route(index, stored, args).Failure? && Route(index, stored, args).error.NonNumericFeedback? ==>
      Route(index, stored, args).error.name == Record(stored, args.feedback).error
  {
    SelectErrors(index, stored, args.task, args.max, args.bundle);
    if Select(index, stored, args.task, args.max, args.bundle).Failure? {
      RouteKeepsSelectFailure(index, stored, args);
      SelectNeverNonNumeric(index, stored, args.task, args.max, args.bundle);
    } else {
      RouteAfterSelect(index, stored, args);
    }
  }

  /** A selection fails exactly for an empty task or an unreadable catalog. */
  lemma SelectErrors(index: Value, stored: map<string, Value>, words: seq<string>, requested: int, bundle: Option<string>)
    ensures Select(index, stored, words, requested, bundle).Success?
       <==> TaskText(words) != [] && DecodeSkills(CatalogOf(index)).Some?
    ensures Select(index, stored, words, requested, bundle) == Failure(UnreadableCatalog)
       <==> TaskText(words) != [] && DecodeSkills(CatalogOf(index)).None?
  {
  }

  lemma SelectNeverNonNumeric(index: Value, stored: map<string, Value>, words: seq<string>, requested: int, bundle: Option<string>)
    ensures Select(index, stored, words, requested, bundle).Failure? ==>
      !Select(index, stored, words, requested, bundle).error.NonNumericFeedback?
  {
  }

  /** A failed selection is the run's failure. */
  lemma RouteKeepsSelectFailure(index: Value, stored: map<string, Value>, args: Args)
    requires Select(index, stored, args.task, args.max, args.bundle).Failure?
    ensures Route(index, stored, args) == Failure(Select(index, stored, args.task, args.max, args.bundle).error)
  {
  }

  /** After a successful selection, a run fails exactly when recording does. */
  lemma RouteAfterSelect(index: Value, stored: map<string, Value>, args: Args)
    requires Select(index, stored, args.task, args.max, args.bundle).Success?
    ensures Route(index, stored, args).Failure? <==> Record(stored, args.feedback).Failure?
    ensures Route(index, stored, args).Failure? ==>
      Route(index, stored, args).error == NonNumericFeedback(Record(stored, args.feedback).error)
  {
    if args.feedback == [] {
      assert Record(stored, args.feedback) == Success(stored);
    }
  }

  /** The feedback given in a run does not steer that run's selection: the
      picks and the output are computed from the store as loaded. */
  lemma RouteFeedbackLater(index: Value, stored: map<string, Value>, args: Args, names: seq<string>)
    requires Route(index, stored, args).Success?
    requires Route(index, stored, args.(feedback := names)).Success?
    ensures Route(index, stored, args.(feedback := names)).value.picked == Route(index, stored, args).value.picked
    ensures Route(index, stored, args.(feedback := names)).value.output == Route(index, stored, args).value.output
  {
    var other := args.(feedback := names);
    RouteShape(index, stored, args);
    RouteShape(index, stored, other);
    assert other.task == args.task && other.max == args.max && other.bundle == args.bundle;
  }

  /** The printed text of a run with picks reads back as those picks and the
      task, when no identifier contains a space or a newline. */
  lemma RouteOutputReadsBack(index: Value, stored: map<string, Value>, args: Args)
    requires Route(index, stored, args).Success?
    requires Route(index, stored, args).value.picked != []
    requires forall i :: 0 <= i < |Route(index, stored, args).value.picked| ==>
      ' ' !in Route(index, stored, args).value.picked[i] && '\n' !in Route(index, stored, args).value.picked[i]
    ensures ParseOutput(Route(index, stored, args).value.output)
         == Some((Route(index, stored, args).value.picked, TaskText(args.task)))
  {
    var o := Route(index, stored, args).value;
    RouteShape(index, stored, args);
    SelectShape(index, stored, args.task, args.max, args.bundle);
    RenderParse(o.picked, TaskText(args.task));
  }
}
