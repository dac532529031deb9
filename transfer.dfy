/** The arithmetic both servers apply to each received chunk
    (server/routes.ts:217-227, api/server.js:206-209): the rounded percentage
    and the rounded number of seconds left. */
module Transfer {
  import opened Common

  /** Math.round(d / t * 100): the percentage downloaded. */
  function Percent(d: nat, t: nat): (p: nat)
    requires t > 0
    ensures 2 * p * t <= 200 * d + t < 2 * p * t + 2 * t
    ensures d <= t ==> p <= 100
    ensures d == t ==> p == 100
  {
    RoundBounds(d, t);
    RoundDiv(100 * d, t)
  }

  lemma RoundBounds(d: nat, t: nat)
    requires t > 0
    ensures d <= t ==> RoundDiv(100 * d, t) <= 100
    ensures d == t ==> RoundDiv(100 * d, t) == 100
  {
    var p := RoundDiv(100 * d, t);
    if d <= t {
      assert p * (2 * t) < 101 * (2 * t);
      MulCancel(p, 101, 2 * t);
    }
    if d == t {
      assert 99 * (2 * t) < p * (2 * t);
      MulCancel(99, p, 2 * t);
    }
  }

  /** More bytes never show a smaller percentage. */
  lemma PercentMonotone(d1: nat, d2: nat, t: nat)
    requires t > 0 && d1 <= d2
    ensures Percent(d1, t) <= Percent(d2, t)
  {
    RoundDivMonotone(100 * d1, 100 * d2, t);
  }

  /** Math.round(remaining / speed) with speed the bytes (or MB) per second so
      far, in seconds; 0 when that speed is not positive (no bytes yet). An
      elapsed time of zero makes the speed infinite and the quotient zero. A
      download past its total gives a negative value. */
  function EtaSeconds(d: nat, t: nat, elapsedMs: nat): (r: int)
    ensures d > 0 && elapsedMs > 0 ==>
              var b := 1000 * d;
              2 * r * b <= 2 * ((t - d) * elapsedMs) + b < 2 * r * b + 2 * b
    ensures d == 0 || elapsedMs == 0 ==> r == 0
  {
    if d > 0 && elapsedMs > 0 then RoundDiv((t - d) * elapsedMs, 1000 * d) else 0
  }

  /** The estimate is never negative while the download has not passed its
      total, and is zero once it has reached it or before any byte arrived. */
  lemma EtaBounds(d: nat, t: nat, elapsedMs: nat)
    ensures t >= d ==> EtaSeconds(d, t, elapsedMs) >= 0
    ensures d == 0 || elapsedMs == 0 || t == d ==> EtaSeconds(d, t, elapsedMs) == 0
  {
    if d > 0 && elapsedMs > 0 {
      var b := 1000 * d;
      var a := (t - d) * elapsedMs;
      var r := RoundDiv(a, b);
      if t >= d {
        assert a >= 0;
      }
      if t == d {
        assert a == 0;
        assert r * (2 * b) <= b < (r + 1) * (2 * b);
        if r > 0 {
          MulMonotone(1, r, 2 * b);
        }
      }
    }
  }
}
