/** Recording positive feedback (tools/skill_router.py:246-249): every listed
    identifier gains 2 in the feedback store, which later runs add to that
    record's score. Loading and saving the store are left to the caller. */
module Feedback {
  import opened Wrappers
  import opened Json
  import opened Catalog
  import opened Scoring

  /** What one feedback event adds to a bias. */
  const FeedbackStep := 2

  /** `feedback.get(name, 0)` as a number; None when the stored value is not
      one, where the source's `+ 2` raises a TypeError. */
  function Stored(feedback: map<string, Value>, name: string): Option<int> {
    if name in feedback then Numeric(feedback[name]) else Some(0)
  }

  /** `for name in names: feedback[name] = feedback.get(name, 0) + 2`; the
      failure carries the name whose stored bias is not a number. */
  function Record(feedback: map<string, Value>, names: seq<string>): (r: Result<map<string, Value>, string>)
    ensures r.Failure? ==> r.error in names && Stored(feedback, r.error).None?
    decreases |names|
  {
    if names == [] then Success(feedback)
    else match Stored(feedback, names[0])
      case None => Failure(names[0])
      case Some(n) => Record(feedback[names[0] := Int(n + FeedbackStep)], names[1..])
  }

  /** How often `k` occurs in `names`. */
  function Count(names: seq<string>, k: string): nat {
    if names == [] then 0 else (if names[0] == k then 1 else 0) + Count(names[1..], k)
  }

  // ---------------------------------------------------------------------------
  // Lemmas
  // ---------------------------------------------------------------------------

  /** Recording succeeds exactly when every listed name is missing or holds a
      number. */
  lemma {:induction false} RecordSucceeds(feedback: map<string, Value>, names: seq<string>)
    ensures Record(feedback, names).Success? <==>
      forall i :: 0 <= i < |names| ==> Stored(feedback, names[i]).Some?
    decreases |names|
  {
    if names != [] {
      var n0 := names[0];
      if Stored(feedback, n0).Some? {
        var next := feedback[n0 := Int(Stored(feedback, n0).value + FeedbackStep)];
        RecordSucceeds(next, names[1..]);
        assert forall k :: Stored(next, k).Some? <==> k == n0 || Stored(feedback, k).Some?;
        assert forall i :: 1 <= i < |names| ==> names[i] == names[1..][i - 1];
      }
    }
  }

  /** Each occurrence of a name raises its bias by exactly 2 (a missing entry
      starting from 0), listed names become keys, and every other entry is left
      as it was. */
  lemma RecordCounts(feedback: map<string, Value>, names: seq<string>)
    requires Record(feedback, names).Success?
    ensures var updated := Record(feedback, names).value;
      && updated.Keys == feedback.Keys + (set n | n in names)
      && (forall k :: k in names ==>
            Stored(feedback, k).Some? && updated[k] == Int(Stored(feedback, k).value + FeedbackStep * Count(names, k)))
      && (forall k :: k in feedback && k !in names ==> updated[k] == feedback[k])
  {
    RecordKeys(feedback, names);
    var updated := Record(feedback, names).value;
    forall k | k in names
      ensures Stored(feedback, k).Some? && updated[k] == Int(Stored(feedback, k).value + FeedbackStep * Count(names, k))
    {
      RecordListed(feedback, names, k);
    }
    forall k | k in feedback && k !in names
      ensures updated[k] == feedback[k]
    {
      RecordUnlisted(feedback, names, k);
    }
  }

  /** Recording adds exactly the listed names as keys. */
  lemma RecordKeys(feedback: map<string, Value>, names: seq<string>)
    requires Record(feedback, names).Success?
    ensures Record(feedback, names).value.Keys == feedback.Keys + (set n | n in names)
  {
    var updated := Record(feedback, names).value;
    var listed := set n | n in names;
    forall k
      ensures k in updated.Keys <==> k in feedback.Keys + listed
    {
      if k in names {
        RecordListed(feedback, names, k);
      } else {
        RecordUnlisted(feedback, names, k);
      }
    }
  }

  /** A listed name ends up holding its stored number plus 2 per occurrence. */
  lemma {:induction false} RecordListed(feedback: map<string, Value>, names: seq<string>, k: string)
    requires Record(feedback, names).Success?
    requires k in names
    ensures k in Record(feedback, names).value
    ensures Stored(feedback, k).Some?
    ensures Record(feedback, names).value[k] == Int(Stored(feedback, k).value + FeedbackStep * Count(names, k))
    decreases |names|
  {
    var n0 := names[0];
    var tail := names[1..];
    var s0 := Stored(feedback, n0).value;
    var next := feedback[n0 := Int(s0 + FeedbackStep)];
    assert Record(feedback, names) == Record(next, tail);
    if k == n0 {
      if k in tail {
        RecordListed(next, tail, k);
      } else {
        RecordUnlisted(next, tail, k);
        CountAbsent(tail, k);
      }
    } else {
      assert k in tail;
      RecordListed(next, tail, k);
      assert Stored(next, k) == Stored(feedback, k);
    }
  }

  /** A name not listed keeps its entry, or stays absent. */
  lemma {:induction false} RecordUnlisted(feedback: map<string, Value>, names: seq<string>, k: string)
    requires Record(feedback, names).Success?
    requires k !in names
    ensures k in Record(feedback, names).value <==> k in feedback
    ensures k in feedback ==> Record(feedback, names).value[k] == feedback[k]
    decreases |names|
  {
    if names != [] {
      var n0 := names[0];
      var s0 := Stored(feedback, n0).value;
      var next := feedback[n0 := Int(s0 + FeedbackStep)];
      assert Record(feedback, names) == Record(next, names[1..]);
      assert k !in names[1..];
      RecordUnlisted(next, names[1..], k);
    }
  }

  lemma {:induction false} CountAbsent(names: seq<string>, k: string)
    requires k !in names
    ensures Count(names, k) == 0
    decreases |names|
  {
    if names != [] {
      CountAbsent(names[1..], k);
    }
  }

  /** A name given twice gains 4. */
  lemma RecordTwice(feedback: map<string, Value>, name: string)
    requires Stored(feedback, name).Some?
    ensures Record(feedback, [name, name])
         == Success(feedback[name := Int(Stored(feedback, name).value + 2 * FeedbackStep)])
  {
    var once := feedback[name := Int(Stored(feedback, name).value + FeedbackStep)];
    assert [name, name][1..] == [name];
    assert Record(feedback, [name, name]) == Record(once, [name]);
    assert once[name := Int(Stored(feedback, name).value + 2 * FeedbackStep)]
        == feedback[name := Int(Stored(feedback, name).value + 2 * FeedbackStep)];
  }

  /** After recording, a later run scores each record 2 higher per time its
      identifier was listed, and exactly as before otherwise. */
  lemma RecordRaisesScore(s: Skill, tokens: seq<string>, feedback: map<string, Value>,
                          names: seq<string>, bundle: set<string>)
    requires Record(feedback, names).Success?
    ensures Score(s, tokens, Record(feedback, names).value, bundle)
         == Score(s, tokens, feedback, bundle) + FeedbackStep * Count(names, Identifier(s))
  {
    var updated := Record(feedback, names).value;
    RecordRaisesBias(feedback, names, Identifier(s));
    ScoreByBias(s, tokens, feedback, updated, bundle);
  }

  /** Recording raises the bias of a name by 2 per occurrence. */
  lemma RecordRaisesBias(feedback: map<string, Value>, names: seq<string>, id: string)
    requires Record(feedback, names).Success?
    ensures Bias(Record(feedback, names).value, id) == Bias(feedback, id) + FeedbackStep * Count(names, id)
  {
    if id in names {
      RecordListed(feedback, names, id);
    } else {
      RecordUnlisted(feedback, names, id);
      CountAbsent(names, id);
    }
  }

  /** Two stores give scores that differ by the difference of their biases. */
  lemma ScoreByBias(s: Skill, tokens: seq<string>, f1: map<string, Value>, f2: map<string, Value>, bundle: set<string>)
    ensures Score(s, tokens, f2, bundle) - Score(s, tokens, f1, bundle)
         == Bias(f2, Identifier(s)) - Bias(f1, Identifier(s))
  {
  }
}
