/** When a strategy holds the stock.

    Every strategy loop reads, at each bar, a condition to enter and a condition to leave, and
    remembers in a flag whether it is in the market.  `HeldAt` is that flag after a bar, before
    the liquidation that the loops force on the last bar. */
module Positions {

  datatype Cue = Cue(enter: bool, leave: bool)

  /** No bar asks to enter and to leave at once; every strategy satisfies this. */
  ghost predicate Exclusive(cues: seq<Cue>) {
    forall i | 0 <= i < |cues| :: !(cues[i].enter && cues[i].leave)
  }

  ghost function HeldAt(cues: seq<Cue>, i: nat): bool
    requires i < |cues|
  {
    var before := i > 0 && HeldAt(cues, i - 1);
    if before then !cues[i].leave else cues[i].enter
  }

  ghost function Held(cues: seq<Cue>): (held: seq<bool>)
    ensures |held| == |cues|
    ensures forall i | 0 <= i < |cues| :: held[i] == HeldAt(cues, i)
  {
    seq(|cues|, i requires 0 <= i < |cues| => HeldAt(cues, i))
  }

  /** Bar `j` asked to enter and no bar after it, up to `i`, asked to leave. */
  ghost predicate EnteredSince(cues: seq<Cue>, j: nat, i: nat)
    requires j <= i < |cues|
  {
    cues[j].enter && forall k | j < k <= i :: !cues[k].leave
  }

  /** The remembered flag equals a stateless condition on the bars seen so far. */
  lemma {:induction false} HeldIffEnteredSince(cues: seq<Cue>, i: nat)
    requires i < |cues| && Exclusive(cues)
    ensures HeldAt(cues, i) <==> exists j: nat | j <= i :: EnteredSince(cues, j, i)
  {
    if i > 0 {
      HeldIffEnteredSince(cues, i - 1);
      if HeldAt(cues, i) {
        if HeldAt(cues, i - 1) {
          var j: nat :| j <= i - 1 && EnteredSince(cues, j, i - 1);
          assert EnteredSince(cues, j, i);
        } else {
          assert EnteredSince(cues, i, i);
        }
      }
      if j: nat :| j <= i && EnteredSince(cues, j, i) {
        if j < i {
          assert EnteredSince(cues, j, i - 1);
          assert !cues[i].leave;
        }
      }
    } else if HeldAt(cues, 0) {
      assert EnteredSince(cues, 0, 0);
    }
  }
}
