/** Cues read off two series, and when the remembered position equals a plain condition on them. */
module Crossover {
  import opened Positions

  ghost predicate Above(fast: seq<real>, slow: seq<real>, i: nat)
    requires i < |fast| == |slow|
  {
    fast[i] > slow[i]
  }

  ghost predicate Below(fast: seq<real>, slow: seq<real>, i: nat)
    requires i < |fast| == |slow|
  {
    fast[i] < slow[i]
  }

  /** Enter when the fast series crosses up, leave when it crosses down.  A loose entry also
      accepts a cross that starts from a tie. */
  ghost function CrossCue(fast: seq<real>, slow: seq<real>, loose: bool, i: nat): Cue
    requires i < |fast| == |slow|
  {
    Cue(i > 0 && Above(fast, slow, i) && (if loose then !Above(fast, slow, i - 1) else Below(fast, slow, i - 1)),
        i > 0 && Below(fast, slow, i) && Above(fast, slow, i - 1))
  }

  ghost predicate CrossCues(cues: seq<Cue>, fast: seq<real>, slow: seq<real>, loose: bool) {
    |cues| == |fast| == |slow| && forall i | 0 <= i < |cues| :: cues[i] == CrossCue(fast, slow, loose, i)
  }

  /** Above now, after a bar that counts as not yet crossed. */
  ghost predicate Crossed(fast: seq<real>, slow: seq<real>, loose: bool, i: nat)
    requires i < |fast| == |slow|
  {
    Above(fast, slow, i) && WasLow(fast, slow, loose, i)
  }

  ghost predicate WasLow(fast: seq<real>, slow: seq<real>, loose: bool, i: nat)
    requires i <= |fast| == |slow|
  {
    exists j | 0 <= j < i :: if loose then !Above(fast, slow, j) else Below(fast, slow, j)
  }

  ghost predicate Tie(fast: seq<real>, slow: seq<real>, i: nat)
    requires i < |fast| == |slow|
  {
    fast[i] == slow[i]
  }

  /** A tie that misleads the loop: right after a bar that had crossed and, for a strict entry,
      also right before a bar that is above again. */
  ghost predicate Misleads(fast: seq<real>, slow: seq<real>, loose: bool, i: nat)
    requires 0 < i < |fast| == |slow|
  {
    && WasLow(fast, slow, loose, i - 1)
    && ((Above(fast, slow, i - 1) && Tie(fast, slow, i)) || (!loose && Tie(fast, slow, i - 1) && Above(fast, slow, i)))
  }

  ghost predicate AgreesAt(cues: seq<Cue>, fast: seq<real>, slow: seq<real>, loose: bool, i: nat)
    requires i < |cues| == |fast| == |slow|
  {
    HeldAt(cues, i) <==> Crossed(fast, slow, loose, i)
  }

  lemma WasLowStep(fast: seq<real>, slow: seq<real>, loose: bool, i: nat)
    requires 0 < i <= |fast| == |slow|
    ensures WasLow(fast, slow, loose, i)
       <==> WasLow(fast, slow, loose, i - 1) || (if loose then !Above(fast, slow, i - 1) else Below(fast, slow, i - 1))
  {
  }

  /** One bar keeps the agreement exactly when it does not mislead. */
  lemma AgreementStep(cues: seq<Cue>, fast: seq<real>, slow: seq<real>, loose: bool, i: nat)
    requires 0 < i < |cues| && CrossCues(cues, fast, slow, loose) && AgreesAt(cues, fast, slow, loose, i - 1)
    ensures AgreesAt(cues, fast, slow, loose, i) <==> !Misleads(fast, slow, loose, i)
  {
    WasLowStep(fast, slow, loose, i);
    hide WasLow;
    assert cues[i] == CrossCue(fast, slow, loose, i);
  }

  lemma {:induction false} AgreementUpTo(cues: seq<Cue>, fast: seq<real>, slow: seq<real>, loose: bool, i: nat)
    requires i < |cues| && CrossCues(cues, fast, slow, loose)
    requires forall k | 0 < k <= i :: !Misleads(fast, slow, loose, k)
    ensures AgreesAt(cues, fast, slow, loose, i)
  {
    if i > 0 {
      AgreementUpTo(cues, fast, slow, loose, i - 1);
      AgreementStep(cues, fast, slow, loose, i);
    }
  }

  /** The remembered position is "above, after having been low" on the whole window exactly when
      no tie misleads the loop; a window without ties is a special case. */
  lemma HeldIffCrossed(cues: seq<Cue>, fast: seq<real>, slow: seq<real>, loose: bool)
    requires CrossCues(cues, fast, slow, loose)
    ensures (forall i | 0 <= i < |cues| :: AgreesAt(cues, fast, slow, loose, i))
       <==> (forall i | 0 < i < |cues| :: !Misleads(fast, slow, loose, i))
    ensures (forall i | 0 <= i < |cues| :: !Tie(fast, slow, i))
       ==> (forall i | 0 <= i < |cues| :: AgreesAt(cues, fast, slow, loose, i))
  {
    hide AgreesAt, WasLow;
    if forall i | 0 <= i < |cues| :: AgreesAt(cues, fast, slow, loose, i) {
      forall i | 0 < i < |cues|
        ensures !Misleads(fast, slow, loose, i)
      {
        assert AgreesAt(cues, fast, slow, loose, i - 1) && AgreesAt(cues, fast, slow, loose, i);
        AgreementStep(cues, fast, slow, loose, i);
      }
    }
    if forall i | 0 < i < |cues| :: !Misleads(fast, slow, loose, i) {
      forall i | 0 <= i < |cues|
        ensures AgreesAt(cues, fast, slow, loose, i)
      {
        AgreementUpTo(cues, fast, slow, loose, i);
      }
    }
  }

  /** A concrete window on which a tie makes the two differ: low, crossed, tied. */
  lemma TieKeepsPosition(loose: bool) returns (cues: seq<Cue>, fast: seq<real>, slow: seq<real>)
    ensures CrossCues(cues, fast, slow, loose)
    ensures |cues| == 3 && HeldAt(cues, 2) && !Crossed(fast, slow, loose, 2)
  {
    fast, slow := [1.0, 3.0, 2.0], [2.0, 2.0, 2.0];
    cues := [CrossCue(fast, slow, loose, 0), CrossCue(fast, slow, loose, 1), CrossCue(fast, slow, loose, 2)];
    assert HeldAt(cues, 1);
  }

  // ----- cues that follow the level instead of the crossing

  ghost predicate LevelCues(cues: seq<Cue>, fast: seq<real>, slow: seq<real>) {
    |cues| == |fast| == |slow|
    && forall i | 0 <= i < |cues| :: cues[i] == Cue(Above(fast, slow, i), Below(fast, slow, i))
  }

  /** Bar `j` is the latest bar up to `i` without a tie. */
  ghost predicate LatestUntied(fast: seq<real>, slow: seq<real>, j: nat, i: nat)
    requires j <= i < |fast| == |slow|
  {
    !Tie(fast, slow, j) && forall k | j < k <= i :: Tie(fast, slow, k)
  }

  /** Such a position is open exactly when the latest bar without a tie is above. */
  lemma {:induction false} HeldIffLatestUntiedAbove(cues: seq<Cue>, fast: seq<real>, slow: seq<real>, i: nat)
    requires LevelCues(cues, fast, slow) && i < |cues|
    ensures HeldAt(cues, i) <==> exists j: nat | j <= i :: LatestUntied(fast, slow, j, i) && Above(fast, slow, j)
  {
    assert cues[i] == Cue(Above(fast, slow, i), Below(fast, slow, i));
    if !Tie(fast, slow, i) {
      assert LatestUntied(fast, slow, i, i);
    } else if i > 0 {
      HeldIffLatestUntiedAbove(cues, fast, slow, i - 1);
      assert forall j: nat | j < i :: LatestUntied(fast, slow, j, i) <==> LatestUntied(fast, slow, j, i - 1);
    }
  }
}
