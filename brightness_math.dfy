/** The arithmetic of the brightness service (services/brightness.py): the percentage
    read from a raw value, the raw value written for a percentage, and the bounded
    backoffs and retry budget. Python's float `round` is taken over exact rationals,
    with ties to the even neighbour. */
module BrightnessMath {
  import opened Common

  /** The sign of a product with a positive factor is the sign of the other factor. */
  lemma SignOfProduct(a: int, b: int)
    requires a > 0
    ensures a * b >= 0 ==> b >= 0
    ensures a * b <= 0 ==> b <= 0
  {
  }

  /** `int(round((cur / mx) * 100))`: the percentage shown for a raw reading. */
  function Percent(cur: int, mx: int): (pct: int)
    requires mx > 0
    ensures 0 <= cur <= mx ==> 0 <= pct <= 100
    ensures -mx <= 2 * (cur * 100 - mx * pct) <= mx
  {
    var r := RoundDiv(cur * 100, mx);
    if 0 <= cur <= mx then
      PercentBounds(cur, mx, r);
      r
    else r
  }

  lemma PercentBounds(cur: int, mx: int, r: int)
    requires 0 <= cur <= mx && mx > 0
    requires -mx <= 2 * (cur * 100 - mx * r) <= mx
    ensures 0 <= r <= 100
  {
    assert mx * (2 * r + 1) == 2 * (mx * r) + mx;
    assert mx * (2 * r - 201) == 2 * (mx * r) - 201 * mx;
    SignOfProduct(mx, 2 * r + 1);
    SignOfProduct(mx, 2 * r - 201);
  }

  /** `int(round((tgt / 100) * mx))`: the raw value written for a target percentage,
      which always lies within the display's range. */
  function RawFor(tgt: int, mx: int): (raw: int)
    requires 0 <= tgt <= 100 && mx > 0
    ensures 0 <= raw <= mx
    ensures -100 <= 2 * (tgt * mx - 100 * raw) <= 100
  {
    var r := RoundDiv(tgt * mx, 100);
    RawBounds(tgt, mx, r);
    r
  }

  lemma RawBounds(tgt: int, mx: int, r: int)
    requires 0 <= tgt <= 100 && mx > 0
    requires -100 <= 2 * (tgt * mx - 100 * r) <= 100
    ensures 0 <= r <= mx
  {
    MulNonneg(mx, tgt);
    MulNonneg(mx, 100 - tgt);
    assert tgt * mx <= 100 * mx;
  }

  /** A display whose maximum is at least 100 reads back exactly the percentage that
      was written for it, so one write settles the target. */
  lemma {:induction false} ReadBackOfWrite(tgt: int, mx: int)
    requires 0 <= tgt <= 100 && mx >= 100
    ensures Percent(RawFor(tgt, mx), mx) == tgt
  {
    var raw := RawFor(tgt, mx);
    var d := 2 * (raw * 100 - mx * tgt);
    assert -100 <= d <= 100;
    if mx == 100 {
      RoundDivUnique(tgt * 100, 100, tgt);
    }
    assert mx == 100 ==> d == 0;
    RoundDivUnique(raw * 100, mx, tgt);
  }

  /** With a small maximum a write can miss: 50 % of a maximum of 3 is written as 2
      (1.5 rounds to even), which reads back as 67 %. */
  lemma SmallMaxMissesTarget()
    ensures RawFor(50, 3) == 2
    ensures Percent(RawFor(50, 3), 3) == 67
  {
    RoundDivUnique(150, 100, 2);
    RoundDivUnique(200, 3, 67);
  }

  /** Backoff after a ceiling expiry: the time already waited plus 500 ms, kept within
      [900, 2200] ms. */
  function CeilingBackoff(waited: int): (ms: int)
    ensures 900 <= ms <= 2200
    ensures 400 <= waited <= 1700 ==> ms == waited + 500
  {
    Max(900, Min(2200, waited + 500))
  }

  /** Backoff after the watchdog clears a stuck write: its age plus 400 ms, kept within
      [1400, 3000] ms. */
  function WatchdogBackoff(age: int): (ms: int)
    ensures 1400 <= ms <= 3000
    ensures 1000 <= age <= 2600 ==> ms == age + 400
  {
    Max(1400, Min(3000, age + 400))
  }

  /** The retry budget after a ceiling expiry, `max(1, min(2, b + 1))`: always 1 or 2. */
  function RetryBump(b: int): (r: int)
    ensures 1 <= r <= 2
    ensures 0 <= b <= 1 ==> r == b + 1
  {
    Max(1, Min(2, b + 1))
  }

  /** The confirming read after a ceiling expiry waits half the backoff, at least
      500 ms, so it always falls inside the backoff. */
  function ConfirmDelay(backoff: int): (ms: int)
    requires 900 <= backoff <= 2200
    ensures 500 <= ms <= backoff
  {
    Max(500, backoff / 2)
  }

  /** `now - (started or now)`: a start time of 0 or none counts as no wait. */
  function Waited(now: int, startedAt: Option<int>): (w: int)
    ensures startedAt.None? ==> w == 0
  {
    if startedAt.Some? && startedAt.value != 0 then now - startedAt.value else 0
  }
}
