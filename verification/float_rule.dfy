/** The relative threshold as the source computes it (tools/skill_router.py:
    14, 99-107): `int(top_score * RELATIVE_THRESHOLD)` multiplies by the IEEE 754
    binary64 value nearest 0.7, rounds the product to 53 significant bits (round
    half to even) and truncates. That value, 6305039478318694 / 2^53, lies just
    below 0.7, so for some top scores the product lands just below an integer
    and the threshold comes out one lower than seven tenths of the top score
    calls for. The rest of the model uses the exact rule, `Selection.Threshold`. */
module FloatRule {
  import opened Ranking
  import opened Selection

  /** 2^53: the significand range of a binary64 value. */
  const Two53 := 0x20_0000_0000_0000
  /** The significand of the double nearest 0.7, scaled by 2^53. */
  const SevenTenthsScaled := 6305039478318694

  function Pow2(n: nat): (r: nat)
    ensures r >= 1
  {
    if n == 0 then 1 else 2 * Pow2(n - 1)
  }

  /** How many low bits of `p` fall outside a 53-bit significand. */
  function Shift(p: nat): nat {
    if p < Two53 then 0 else 1 + Shift(p / 2)
  }

  /** `p` rounded to a multiple of 2^s, ties to the even multiple, as a count of
      those multiples. */
  function RoundShift(p: nat, s: nat): nat {
    var q := p / Pow2(s);
    var rem := p % Pow2(s);
    if s == 0 then q
    else
      var half := Pow2(s - 1);
      if rem > half || (rem == half && q % 2 == 1) then q + 1 else q
  }

  /** `int(top * 0.7)` for 0 <= top <= 2^53, where `top` converts to a double
      exactly: the exact product `top * 6305039478318694 / 2^53`, rounded to 53
      significant bits and truncated toward zero. */
  function FloatScaled(top: nat): int
    requires top <= Two53
  {
    var p := top * SevenTenthsScaled;
    var s := Shift(p);
    (RoundShift(p, s) * Pow2(s)) / Two53
  }

  /** `max(MIN_SCORE, int(top_score * RELATIVE_THRESHOLD))` as written; a
      negative top score gives a product of at most 0, so the floor of 2
      decides. */
  function FloatThreshold(top: int): (r: int)
    requires top <= Two53
    ensures r >= MinScore
    ensures top <= 0 ==> r == MinScore
  {
    if top <= 0 then MinScore else Max(MinScore, FloatScaled(top))
  }

  /** The admission loop of the source, with the threshold as written. */
  function AdmittedAsWritten(ranked: seq<Scored>, maxSkills: int): seq<string>
    requires TopScore(ranked) <= Two53
  {
    AdmittedAt(ranked, maxSkills, FloatThreshold(TopScore(ranked)))
  }

  // ---------------------------------------------------------------------------
  // Lemmas
  // ---------------------------------------------------------------------------

  /** At a top score of 90, `90 * 0.7` evaluates to 62.99999999999999, so the
      source's threshold is 62, while seven tenths of 90 is 63. */
  lemma FloatThresholdAt90()
    ensures FloatThreshold(90) == 62
    ensures Threshold(90) == 63
  {
    var p := 90 * SevenTenthsScaled;
    assert p == 567453553048682460;
    assert Shift(8866461766385663) == 0;
    assert Shift(17732923532771326) == 1;
    assert Shift(35465847065542653) == 2;
    assert Shift(70931694131085307) == 3;
    assert Shift(141863388262170615) == 4;
    assert Shift(283726776524341230) == 5;
    assert Shift(p) == 6;
    assert Pow2(5) == 32;
    assert Pow2(6) == 64;
    assert RoundShift(p, 6) == 8866461766385663;
  }

  /** With scores 90 and 62 and room for two picks, the source admits both
      records although 62 is below 70% of 90; the exact rule admits only the
      first. */
  lemma AdmitsBelowSeventyPercent()
    ensures AdmittedAsWritten([Scored(90, "a"), Scored(62, "b")], 2) == ["a", "b"]
    ensures Admitted([Scored(90, "a"), Scored(62, "b")], 2) == ["a"]
    ensures 10 * 62 < ThresholdTenths * 90
  {
    var ranked := [Scored(90, "a"), Scored(62, "b")];
    FloatThresholdAt90();
    assert ranked[1..][1..] == [];
    assert CountAtLeast(ranked, 62) == 2;
    assert CountAtLeast(ranked, 63) == 1;
    assert ranked[..2] == ranked;
    assert ranked[..1] == [Scored(90, "a")];
  }
}
