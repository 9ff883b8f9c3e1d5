/** The breathing exercise card (`BreathingExercise.tsx`): what one animation frame shows, as a
    function of the milliseconds since the exercise started. The frame loop itself is not
    modelled; the clock reading is a parameter. */
module Breathing {
  import opened Numeric

  const InhaleMs: int := 4000
  const HoldMs: int := 2000
  const ExhaleMs: int := 4000

  /** One full breath (lines 23-27). */
  const CycleMs: int := InhaleMs + HoldMs + ExhaleMs

  /** JavaScript's quotient for `%`: the true quotient rounded toward zero. */
  function TruncDiv(a: int, b: int): int
    requires b > 0
  {
    if a >= 0 then a / b else -((-a) / b)
  }

  /** Line 32: the position within the current breath, `since % CycleMs` with JavaScript's `%`:
      what is left after taking out whole cycles toward zero, so it has the sign of `since`. */
  function Elapsed(since: int): (e: int)
    ensures since >= 0 ==> 0 <= e < CycleMs
    ensures since < 0 ==> -CycleMs < e <= 0
    ensures e == since - TruncDiv(since, CycleMs) * CycleMs
  {
    if since >= 0 then since % CycleMs else -((-since) % CycleMs)
  }

  datatype Phase = Inhale | Hold | Exhale

  /** What the card shows; `progress` is a percentage held as a fraction over 40, since every
      value the card computes is a multiple of 1/40. */
  datatype Display = Display(phase: Phase, text: string, progress: Ratio)

  /** Lines 34-48: inhaling fills the ring over 4 s, holding keeps it full for 2 s, exhaling
      empties it over 4 s. */
  function Frame(elapsed: int): (d: Display)
    ensures d.phase == Inhale <==> elapsed < InhaleMs
    ensures d.phase == Hold <==> InhaleMs <= elapsed < InhaleMs + HoldMs
    ensures d.phase == Exhale <==> InhaleMs + HoldMs <= elapsed
    ensures d.progress.den == 40
    ensures d.phase == Inhale ==> d.text == "Inhale..." && d.progress.num * InhaleMs == elapsed * 100 * 40
    ensures d.phase == Hold ==> d.text == "Hold" && d.progress.num == 100 * 40
    ensures d.phase == Exhale ==>
      d.text == "Exhale..." && d.progress.num * ExhaleMs == (100 * ExhaleMs - (elapsed - InhaleMs - HoldMs) * 100) * 40
  {
    if elapsed < InhaleMs then Display(Inhale, "Inhale...", Ratio(elapsed, 40))
    else if elapsed < InhaleMs + HoldMs then Display(Hold, "Hold", Ratio(4000, 40))
    else Display(Exhale, "Exhale...", Ratio(CycleMs - elapsed, 40))
  }

  /** The frame shown `since` milliseconds after the start. */
  function Shown(since: int): Display {
    Frame(Elapsed(since))
  }

  /** Lines 60-64: the card set when the exercise is stopped. A frame already scheduled by the
      animation loop may still overwrite it afterwards; that loop is not modelled. */
  const Inactive: Display := Display(Inhale, "Ready?", Ratio(0, 40))

  /** The display repeats every 10 s. */
  lemma {:induction false} ShownPeriodic(since: int, k: nat)
    requires since >= 0
    ensures Shown(since + k * CycleMs) == Shown(since)
  {
    if k > 0 {
      ShownPeriodic(since, k - 1);
      var prev := since + (k - 1) * CycleMs;
      assert since + k * CycleMs == prev + CycleMs;
      ElapsedStep(prev);
    }
  }

  lemma ElapsedStep(x: int)
    requires x >= 0
    ensures Elapsed(x + CycleMs) == Elapsed(x)
  {
  }

  /** Once the clock has not gone backwards, progress stays between 0 and 100 percent. */
  lemma ProgressInRange(since: int)
    requires since >= 0
    ensures Shown(since).progress.Between(0, 100)
  {
    var e := Elapsed(since);
    assert 0 <= e < CycleMs;
  }

  /** The ring does not jump: inhaling ends full, where holding is; exhaling starts from the
      hold's value and empties completely at the end of the cycle, where inhaling starts. */
  lemma PhasesJoin()
    ensures Frame(InhaleMs - 1).progress.num + 1 == Frame(InhaleMs).progress.num
    ensures Frame(InhaleMs + HoldMs).progress == Frame(InhaleMs).progress
    ensures Frame(CycleMs - 1).progress.num - 1 == Frame(0).progress.num
  {
  }

  /** Inhaling fills the ring and exhaling empties it, step by step. */
  lemma ProgressMonotone(a: int, b: int)
    requires 0 <= a <= b < CycleMs
    ensures Frame(a).phase == Inhale && Frame(b).phase == Inhale ==> Frame(a).progress.num <= Frame(b).progress.num
    ensures Frame(a).phase == Exhale && Frame(b).phase == Exhale ==> Frame(a).progress.num >= Frame(b).progress.num
    ensures Frame(a).phase == Exhale ==> Frame(b).phase == Exhale
  {
  }

  /** A clock that moves backwards gives a negative position, shown as inhaling below zero. */
  lemma ClockBackwards()
    ensures Shown(-1) == Display(Inhale, "Inhale...", Ratio(-1, 40))
  {
    assert Elapsed(-1) == -1;
  }
}
