/** The animation-speed setting: an index into a five-entry table of delays, stepped
    round by the speed button. Only the index arithmetic is modelled; the delays
    themselves only pace the drawing. */
module Speed {

  /** The browser copy's delays in milliseconds, 0 meaning "next animation frame". */
  const SpeedsMs: seq<nat> := [0, 100, 50, 10, 1]

  /** Number of entries in the delay table (five in both copies). */
  const SpeedCount: nat := |SpeedsMs|

  /** The index both copies start from ("medium"). */
  const DefaultSpeedIdx: nat := 2

  /** One press of the speed button: the next index, wrapping from the last entry back
      to the first. */
  function NextSpeed(i: nat): (r: nat)
    ensures r < SpeedCount
    ensures i < SpeedCount - 1 ==> r == i + 1
    ensures i == SpeedCount - 1 ==> r == 0
  {
    (i + 1) % SpeedCount
  }

  /** The index after `n` presses starting from `i`. */
  function Toggled(i: nat, n: nat): nat {
    if n == 0 then i else NextSpeed(Toggled(i, n - 1))
  }

  /** `n` presses from a valid index advance it by `n` modulo the table size. */
  lemma {:induction false} ToggledMod(i: nat, n: nat)
    requires i < SpeedCount
    ensures Toggled(i, n) == (i + n) % SpeedCount
  {
    if n > 0 {
      ToggledMod(i, n - 1);
      ModNext(i + n - 1);
    }
  }

  /** Wrapping after reducing modulo the table size is the same as wrapping once. */
  lemma ModNext(x: nat)
    ensures (x % SpeedCount + 1) % SpeedCount == (x + 1) % SpeedCount
  {
    var q, r := x / 5, x % 5;
    assert x == 5 * q + r;
    if r < 4 {
      assert x + 1 == 5 * q + (r + 1);
    } else {
      assert x + 1 == 5 * (q + 1);
    }
  }

  /** Five presses bring every valid index back to where it was. */
  lemma FiveTogglesReturn(i: nat)
    requires i < SpeedCount
    ensures Toggled(i, SpeedCount) == i
  {
    ToggledMod(i, SpeedCount);
  }
}
