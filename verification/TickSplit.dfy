// The search of timeout_calc (hwtimer.c) in timer ticks: what is lost when x ticks are split
// into i rounds of whole ticks, and at which i the loop stops.
module TickSplit {
  import opened Arithmetic

  // ----- In timer ticks ----------------------------------------------------------------------

  // The ticks of one round, and the ticks lost, when x ticks are split into i rounds.
  function Count(x: real, i: int): int
    requires i >= 1
  {
    (x / i as real).Floor
  }

  function Lost(x: real, i: int): real
    requires i >= 1
  {
    x - (Count(x, i) * i) as real
  }

  lemma MulLeqReal(a: real, b: real, c: real)
    requires a <= b && c >= 0.0
    ensures a * c <= b * c
  {
  }

  lemma MulLessReal(a: real, b: real, c: real)
    requires a < b && c > 0.0
    ensures a * c < b * c
  {
  }

  lemma Cancel(a: real, b: real, c: real)
    requires c > 0.0
    ensures a * c < b * c <==> a < b
    ensures a * c <= b * c <==> a <= b
    ensures a * c == b * c <==> a == b
  {
    if a < b { MulLessReal(a, b, c); }
    if b < a { MulLessReal(b, a, c); }
  }

  lemma Between(q: real, r: real, x: real, lo: real, hi: real)
    requires r > 0.0 && q * r == x && lo * r <= x < hi * r
    ensures lo <= q < hi
  {
    Cancel(q, hi, r);
    Cancel(lo, q, r);
  }

  lemma FloorOfQuotient(x: real, r: real, c: int, lo: real, hi: real)
    requires r > 0.0 && lo == c as real && hi == (c + 1) as real
    requires lo * r <= x < hi * r
    ensures (x / r).Floor == c
  {
    var q := x / r;
    Between(q, r, x, lo, hi);
    assert q.Floor == c;
  }

  lemma SameFloor(a: real, b: real)
    requires a == b
    ensures a.Floor == b.Floor
  {
  }

  // A whole number of ticks per round: only the whole ticks of x matter.
  lemma CountIsQuotient(x: real, i: int)
    requires i >= 1 && x >= 0.0
    ensures Count(x, i) == x.Floor / i
    ensures Lost(x, i) == (x.Floor % i) as real + (x - x.Floor as real)
    ensures 0.0 <= Lost(x, i) < i as real
  {
    var n, c := x.Floor, x.Floor / i;
    assert n == c * i + n % i;
    assert (c + 1) * i == c * i + i;
    var lo, hi := c as real, (c + 1) as real;
    assert (c * i) as real == lo * i as real;
    assert ((c + 1) * i) as real == hi * i as real;
    FloorOfQuotient(x, i as real, c, lo, hi);
  }

  predicate Fits(x: real, maxcnt: int, i: int) {
    x <= (maxcnt * i) as real
  }

  lemma FitsUpward(x: real, maxcnt: int, i: int, j: int)
    requires 1 <= i <= j && maxcnt >= 0 && Fits(x, maxcnt, i)
    ensures Fits(x, maxcnt, j)
  {
    MulLeq(i, j, maxcnt);
  }

  // No divisor below n made the loop stop, nor does n itself by losing nothing: over the
  // divisors that fit, the loss neither reaches zero nor rises.
  ghost predicate NeverRises(x: real, maxcnt: int, n: int) {
    forall i :: 1 <= i < n && Fits(x, maxcnt, i) ==> Lost(x, i) > 0.0 && Lost(x, i + 1) <= Lost(x, i)
  }

  // With one more divisor than there are whole ticks, everything is lost.
  lemma LastDivisor(x: real, maxcnt: int)
    requires x >= 1.0 && maxcnt >= 2
    ensures var n := x.Floor; n >= 1 && Fits(x, maxcnt, n) && Lost(x, n) < Lost(x, n + 1)
  {
    var n := x.Floor;
    MulLeq(2, maxcnt, n);
    CountIsQuotient(x, n);
    CountIsQuotient(x, n + 1);
    assert n / (n + 1) == 0 && n % (n + 1) == n && n % n == 0;
  }

  // Past the square root of n the quotient cannot fall without the remainder rising.
  lemma QuotientStays(n: int, i: int, c: int, r: int, d: int, e: int)
    requires n == c * i + r && 0 <= r < i
    requires n == d * (i + 1) + e && 0 <= e <= r
    requires 0 <= n <= i * i
    ensures d == c
  {
    if c < 0 { MulLeq(c, -1, i); }
    assert (c + 1) * (i + 1) == c * i + c + i + 1;
    assert (c - 1) * (i + 1) == c * i + c - i - 1;
    if d > c {
      MulLeq(c + 1, d, i + 1);
    } else if d < c {
      MulLeq(d, c - 1, i + 1);
      assert c > i;
      MulLeq(i + 1, c, i);
    }
  }

  lemma StepPastRoot(x: real, i: int, s: int)
    requires 1 <= s <= i && x.Floor <= s * s && x >= 0.0
    requires Lost(x, i + 1) <= Lost(x, i)
    ensures x.Floor / (i + 1) == x.Floor / i
  {
    var n := x.Floor;
    CountIsQuotient(x, i);
    CountIsQuotient(x, i + 1);
    MulLeq(s, i, s);
    MulLeq(s, i, i);
    assert (n % (i + 1)) as real <= (n % i) as real;
    QuotientStays(n, i, n / i, n % i, n / (i + 1), n % (i + 1));
  }

  lemma NearRoot(n: int, s: int, k: int, r: int, d: int, e: int)
    requires 4 <= s && (s - 1) * (s - 1) <= n
    requires n == k * s + r && 0 <= r < s && n == d * (s + 2) + e && 0 <= e
    ensures d != k
  {
    assert (s - 2) * s == s * s - 2 * s && (s - 1) * (s - 1) == s * s - 2 * s + 1;
    assert (k + 1) * s == k * s + s && k * (s + 2) == k * s + 2 * k;
    if k < s - 2 { MulLeq(k + 1, s - 2, s); }
  }

  lemma QuotientNearRoot(n: int, s: int)
    requires 4 <= s && (s - 1) * (s - 1) <= n
    ensures n / (s + 2) != n / s
  {
    NearRoot(n, s, n / s, n % s, n / (s + 2), n % (s + 2));
  }

  // The loop stops within two steps of the square root of x.
  lemma StopsNearRoot(x: real, maxcnt: int, n: int, s: int)
    requires 4 <= s && (s - 1) * (s - 1) <= x.Floor && x <= (s * s) as real
    requires maxcnt >= 1 && Fits(x, maxcnt, s) && NeverRises(x, maxcnt, n)
    ensures n <= s + 1
  {
    FitsUpward(x, maxcnt, s, s + 1);
    MulLeq(3, s - 1, s - 1);
    if n >= s + 2 {
      StepPastRoot(x, s, s);
      StepPastRoot(x, s + 1, s);
      QuotientNearRoot(x.Floor, s);
    }
  }

  // ----- Where the loop stops ---------------------------------------------------------------------

  // The largest value of the loop counter, a C int.
  const INT_MAX: int := 0x7FFF_FFFF

  // The loop breaks on a loss of more than one second before it has seen a smaller one.
  ghost predicate SearchFails(x: real, freq: int, maxcnt: int) {
    exists i :: 1 <= i && Fits(x, maxcnt, i) && Lost(x, i) > freq as real &&
      forall j :: 1 <= j < i && Fits(x, maxcnt, j) ==> Lost(x, j) == freq as real
  }

  // c is the split the code settles on when it stops at `stop`: the loss fell or stayed
  // level up to there, so c loses the least of all divisors examined.
  ghost predicate Settles(x: real, maxcnt: int, c: int, stop: int) {
    && 1 <= c <= stop && Fits(x, maxcnt, c)
    && NeverRises(x, maxcnt, stop - 1)
    && (forall j :: 1 <= j <= stop && Fits(x, maxcnt, j) ==> Lost(x, c) <= Lost(x, j))
    && (if c == stop then Lost(x, c) == 0.0 else Lost(x, c) < Lost(x, stop))
  }

  // The loop breaks at divisor i: the round fits the counter, and it loses nothing, or more
  // than devi_min, which is one second at first and then the least that any divisor lost.
  ghost predicate StopsAt(x: real, freq: int, maxcnt: int, i: int) {
    && 1 <= i && Fits(x, maxcnt, i)
    && (Lost(x, i) == 0.0 || Lost(x, i) > freq as real ||
        exists j :: 1 <= j < i && Fits(x, maxcnt, j) && Lost(x, j) < Lost(x, i))
  }

  ghost predicate FirstStop(x: real, freq: int, maxcnt: int, stop: int) {
    StopsAt(x, freq, maxcnt, stop) && forall i :: 1 <= i < stop ==> !StopsAt(x, freq, maxcnt, i)
  }

  // Some divisor that an int can hold stops the loop.
  ghost predicate StopsInInt(x: real, freq: int, maxcnt: int) {
    exists i :: i <= INT_MAX && StopsAt(x, freq, maxcnt, i)
  }

  // When some divisor, of any size, stops the loop; a counter of a single tick needs whole
  // ticks or more than a second.
  predicate SearchEnds(x: real, freq: int, maxcnt: int) {
    maxcnt >= 2 || (maxcnt == 1 && (x == x.Floor as real || x > freq as real))
  }

  lemma StopsByFloor(x: real, freq: int, maxcnt: int) returns (i: int)
    requires x >= 1.0 && freq > 0 && SearchEnds(x, freq, maxcnt)
    ensures StopsAt(x, freq, maxcnt, i) && i <= x.Floor + 1
  {
    var n := x.Floor;
    if maxcnt >= 2 {
      LastDivisor(x, maxcnt);
      FitsUpward(x, maxcnt, n, n + 1);
      i := n + 1;
    } else if x == n as real {
      WholeTicksFit(x);
      i := n;
    } else {
      AllTicksLost(x);
      i := n + 1;
    }
  }

  lemma WholeTicksFit(x: real)
    requires x >= 1.0 && x == x.Floor as real
    ensures Fits(x, 1, x.Floor) && Lost(x, x.Floor) == 0.0
  {
    CountIsQuotient(x, x.Floor);
  }

  lemma AllTicksLost(x: real)
    requires x >= 1.0
    ensures Fits(x, 1, x.Floor + 1) && Lost(x, x.Floor + 1) == x
  {
    var n := x.Floor;
    CountIsQuotient(x, n + 1);
    assert n / (n + 1) == 0 && n % (n + 1) == n;
  }

  // With a counter of one tick every divisor that fits a broken number of ticks loses them all.
  lemma OneTickLoses(x: real, i: int)
    requires x >= 1.0 && x != x.Floor as real && i >= 1 && Fits(x, 1, i)
    ensures Lost(x, i) == x
  {
    CountIsQuotient(x, i);
    assert x.Floor / i == 0 && x.Floor % i == x.Floor;
  }

  lemma SearchEndsIff(x: real, freq: int, maxcnt: int)
    requires x >= 1.0 && freq > 0 && maxcnt >= 0
    ensures (exists i :: StopsAt(x, freq, maxcnt, i)) <==> SearchEnds(x, freq, maxcnt)
  {
    if SearchEnds(x, freq, maxcnt) {
      var i := StopsByFloor(x, freq, maxcnt);
    } else if maxcnt == 1 {
      forall i | 1 <= i && Fits(x, 1, i) ensures Lost(x, i) == x { OneTickLoses(x, i); }
    }
  }

  lemma {:induction false} LeastStop(x: real, freq: int, maxcnt: int, i: int) returns (stop: int)
    requires StopsAt(x, freq, maxcnt, i)
    ensures FirstStop(x, freq, maxcnt, stop) && 1 <= stop <= i
    decreases i
  {
    if j :| 1 <= j < i && StopsAt(x, freq, maxcnt, j) {
      stop := LeastStop(x, freq, maxcnt, j);
    } else {
      stop := i;
    }
  }

  lemma FirstStopBounds(x: real, freq: int, maxcnt: int, stop: int)
    requires x >= 1.0 && freq > 0 && maxcnt >= 0 && FirstStop(x, freq, maxcnt, stop)
    ensures maxcnt >= 1 && stop <= x.Floor + 1
  {
    SearchEndsIff(x, freq, maxcnt);
    var i := StopsByFloor(x, freq, maxcnt);
  }

  lemma FirstStopNeverRises(x: real, freq: int, maxcnt: int, stop: int)
    requires x >= 1.0 && maxcnt >= 1 && FirstStop(x, freq, maxcnt, stop)
    ensures NeverRises(x, maxcnt, stop - 1)
  {
    forall i | 1 <= i < stop - 1 && Fits(x, maxcnt, i) ensures Lost(x, i) > 0.0 && Lost(x, i + 1) <= Lost(x, i) {
      CountIsQuotient(x, i);
      FitsUpward(x, maxcnt, i, i + 1);
      assert !StopsAt(x, freq, maxcnt, i) && !StopsAt(x, freq, maxcnt, i + 1);
    }
  }

  // ----- When it leaves index 0 -------------------------------------------------------------------

  // A request of at most maxcnt seconds is always split.
  lemma NeverFails(x: real, freq: int, maxcnt: int)
    requires x >= 0.0 && freq > 0 && Fits(x, maxcnt, freq)
    ensures !SearchFails(x, freq, maxcnt)
  {
    forall i | 1 <= i && Fits(x, maxcnt, i) && Lost(x, i) > freq as real
      ensures exists j :: 1 <= j < i && Fits(x, maxcnt, j) && Lost(x, j) != freq as real
    {
      CountIsQuotient(x, i);
      CountIsQuotient(x, freq);
      assert Fits(x, maxcnt, freq) && Lost(x, freq) != freq as real;
    }
  }

  // In general the first divisor that fits decides, unless it loses exactly one second: the
  // search fails if and only if that divisor loses more.
  lemma FailsAtFirstFit(x: real, freq: int, maxcnt: int, first: int)
    requires x >= 0.0 && freq > 0 && maxcnt >= 1 && first >= 1
    requires Fits(x, maxcnt, first) && !Fits(x, maxcnt, first - 1)
    requires Lost(x, first) != freq as real
    ensures SearchFails(x, freq, maxcnt) <==> Lost(x, first) > freq as real
  {
    forall j | 1 <= j < first ensures !Fits(x, maxcnt, j) {
      if Fits(x, maxcnt, j) { FitsUpward(x, maxcnt, j, first - 1); }
    }
    assert SearchFails(x, freq, maxcnt) ==> Fits(x, maxcnt, first);
  }

  // Beyond that the search can leave index at 0: 5.5 s on a 1 Hz timer that counts to 2.
  lemma SearchCanFail()
    ensures SearchFails(5.5, 1, 2)
  {
    CountIsQuotient(5.5, 3);
    assert Fits(5.5, 2, 3) && Lost(5.5, 3) == 2.5;
  }

  // ----- Whether the loop counter fits an int -----------------------------------------------------------

  function Ceil(x: real): int {
    -(-x).Floor
  }

  // The smallest number of rounds that fits the counter.
  function FirstFit(x: real, maxcnt: int): int
    requires maxcnt >= 1
  {
    (Ceil(x) - 1) / maxcnt + 1
  }

  lemma FirstFitIs(x: real, maxcnt: int)
    requires x >= 1.0 && maxcnt >= 1
    ensures var first := FirstFit(x, maxcnt);
      first >= 1 && Fits(x, maxcnt, first) && forall i :: i < first ==> !Fits(x, maxcnt, i)
  {
    var m, q := Ceil(x) - 1, (Ceil(x) - 1) / maxcnt;
    assert m == maxcnt * q + m % maxcnt;
    if q < 0 { MulLeq(q, -1, maxcnt); }
    assert maxcnt * (q + 1) == maxcnt * q + maxcnt;
    forall i | i <= q ensures !Fits(x, maxcnt, i) { MulLeq(i, q, maxcnt); }
  }

  // The largest divisor of n with the same quotient as i.
  function Turn(n: int, i: int): int
    requires i >= 1 && n / i >= 1
  {
    n / (n / i)
  }

  // From first to t the quotient of n is c, and t is the last such divisor.
  predicate IsTurn(n: int, first: int, c: int, t: int) {
    1 <= first <= t && 1 <= c && c * t <= n < c * t + c && n < c * first + first
  }

  lemma TurnIsTurn(n: int, i: int)
    requires n >= 0 && i >= 1 && n / i >= 1
    ensures IsTurn(n, i, n / i, Turn(n, i)) && Turn(n, i) < 2 * i
  {
    var c, t := n / i, Turn(n, i);
    assert n == c * i + n % i && n == c * t + n % c;
    assert c * (t + 1) == c * t + c;
    if t < i { MulLeq(t + 1, i, c); }
    LessThanTwice(n, i, c, t);
  }

  lemma LessThanTwice(n: int, i: int, c: int, t: int)
    requires i >= 1 && c >= 1 && c * t <= n < c * i + i
    ensures t < 2 * i
  {
    MulLeq(1, c, i);
    if t >= 2 * i { MulLeq(2 * i, t, c); }
  }

  lemma FlatQuotient(n: int, first: int, c: int, t: int, i: int)
    requires IsTurn(n, first, c, t) && first <= i <= t
    ensures n / i == c && n % i == n - c * i
  {
    MulLeq(i, t, c);
    MulLeq(first, i, c);
    QuotientIs(n, i, c, n - c * i);
  }

  // Past the last divisor with this quotient the remainder rises, if the quotient is not
  // larger than the divisor.
  lemma RemainderRises(n: int, first: int, c: int, t: int)
    requires IsTurn(n, first, c, t) && c <= first
    ensures n % (t + 1) > n - c * t
  {
    var q := n / (t + 1);
    assert n == q * (t + 1) + n % (t + 1);
    assert c * (t + 1) == c * t + c && (c - 1) * (t + 1) == c * t + c - t - 1;
    if q >= c { MulLeq(c, q, t + 1); }
    MulLeq(q, c - 1, t + 1);
  }

  lemma QuotientBelowRoot(n: int, first: int)
    requires first >= 1 && 0 <= n <= first * first
    ensures n / first <= first
  {
    var c := n / first;
    assert n == c * first + n % first;
    if c > first { MulLeq(first + 1, c, first); }
  }

  // What is lost with i rounds while the quotient is c.
  lemma FlatLoss(x: real, first: int, c: int, t: int, i: int)
    requires x >= 1.0 && IsTurn(x.Floor, first, c, t) && first <= i <= t
    ensures Lost(x, i) == (x.Floor - c * i) as real + (x - x.Floor as real)
  {
    FlatQuotient(x.Floor, first, c, t, i);
    CountIsQuotient(x, i);
  }

  // So each further round loses less.
  lemma LossFalls(x: real, first: int, c: int, t: int, i: int, j: int)
    requires x >= 1.0 && IsTurn(x.Floor, first, c, t) && first <= i < j <= t
    ensures Lost(x, i) > Lost(x, j) >= 0.0
  {
    FlatLoss(x, first, c, t, i);
    FlatLoss(x, first, c, t, j);
    CountIsQuotient(x, j);
    ProductGrows(c, i, j);
  }

  lemma ProductGrows(c: int, i: int, j: int)
    requires c >= 1 && i < j
    ensures c * i < c * j
  {
    MulLeq(i + 1, j, c);
  }

  lemma LossRises(x: real, first: int, c: int, t: int)
    requires x >= 1.0 && IsTurn(x.Floor, first, c, t) && c <= first
    ensures Lost(x, t + 1) > Lost(x, t)
  {
    FlatLoss(x, first, c, t, t);
    CountIsQuotient(x, t + 1);
    RemainderRises(x.Floor, first, c, t);
  }

  lemma NoStopBeforeTurn(x: real, freq: int, maxcnt: int, first: int, c: int, t: int, i: int)
    requires x >= 1.0 && IsTurn(x.Floor, first, c, t) && Lost(x, first) <= freq as real
    requires forall j :: j < first ==> !Fits(x, maxcnt, j)
    requires first <= i <= t && (i == t ==> Lost(x, i) != 0.0)
    ensures !StopsAt(x, freq, maxcnt, i)
  {
    CountIsQuotient(x, i);
    if i < t { LossFalls(x, first, c, t, i, t); }
    forall j | first <= j < i ensures Lost(x, j) > Lost(x, i) { LossFalls(x, first, c, t, j, i); }
  }

  // Past the square root of the ticks the loop stops at the turn or right after it.
  lemma StopsAtTurn(x: real, freq: int, maxcnt: int, first: int, c: int, t: int) returns (stop: int)
    requires x >= 1.0 && maxcnt >= 1 && IsTurn(x.Floor, first, c, t) && c <= first && Lost(x, first) <= freq as real
    requires Fits(x, maxcnt, first) && forall j :: j < first ==> !Fits(x, maxcnt, j)
    ensures stop == (if Lost(x, t) == 0.0 then t else t + 1) && FirstStop(x, freq, maxcnt, stop)
  {
    FitsUpward(x, maxcnt, first, t);
    FitsUpward(x, maxcnt, first, t + 1);
    LossRises(x, first, c, t);
    stop := if Lost(x, t) == 0.0 then t else t + 1;
    forall i | 1 <= i < stop ensures !StopsAt(x, freq, maxcnt, i) {
      if i >= first { NoStopBeforeTurn(x, freq, maxcnt, first, c, t, i); }
    }
  }

  // The limit below which the search for a square root of the ticks stays within an int.
  const ROOT: int := INT_MAX - 2

  // Before the square root of the ticks the loop stops within two steps of it.
  lemma StopsBeforeRoot(x: real, freq: int, maxcnt: int, first: int, c: int, t: int)
    requires x >= 1.0 && freq > 0 && maxcnt >= 2 && x.Floor < ROOT * ROOT
    requires IsTurn(x.Floor, first, c, t) && first * first < x.Floor && Fits(x, maxcnt, first)
    ensures t < INT_MAX && StopsInInt(x, freq, maxcnt)
  {
    var i := StopsByFloor(x, freq, maxcnt);
    var s := CeilRoot(x);
    if s < 4 {
      MulLeq(s, 3, s);
      MulLeq(1, c, t);
    } else {
      RootBound(s, ROOT - 1, x.Floor);
      if first > s { MulLeq(s, first, s); MulLeq(s, first, first); }
      FitsUpward(x, maxcnt, first, s);
      var stop := LeastStop(x, freq, maxcnt, i);
      FirstStopNeverRises(x, freq, maxcnt, stop);
      StopsNearRoot(x, maxcnt, stop - 1, s);
      TurnNearRoot(x.Floor, first, c, t, s);
    }
  }

  lemma TurnNearRoot(n: int, first: int, c: int, t: int, s: int)
    requires IsTurn(n, first, c, t) && first <= s && 4 <= s && (s - 1) * (s - 1) <= n
    ensures t <= s + 1
  {
    if t >= s + 2 {
      QuotientNearRoot(n, s);
      FlatQuotient(n, first, c, t, s);
      FlatQuotient(n, first, c, t, s + 2);
    }
  }

  // Whether an int can hold the divisor at which the loop stops, from the first divisor that
  // fits: that one loses more than a second, or the last with its quotient is within an int
  // and, if it is the largest int, loses nothing.
  predicate EndsInInt(x: real, freq: int, maxcnt: int) {
    maxcnt >= 1 &&
    var first := FirstFit(x, maxcnt);
    1 <= first <= INT_MAX &&
    (Lost(x, first) > freq as real ||
     (x.Floor / first >= 1 &&
      var t := Turn(x.Floor, first);
      1 <= t <= INT_MAX && (t == INT_MAX ==> Lost(x, t) == 0.0)))
  }

  // Only a counter of a single tick needs more rounds than there are whole ticks.
  lemma BrokenTicks(x: real, maxcnt: int, first: int)
    requires x >= 1.0 && maxcnt >= 1 && first > x.Floor && forall j :: j < first ==> !Fits(x, maxcnt, j)
    ensures maxcnt == 1 && x != x.Floor as real
  {
    assert !Fits(x, maxcnt, x.Floor);
    if maxcnt >= 2 { MulLeq(2, maxcnt, x.Floor); }
  }

  lemma QuotientZero(n: int, first: int)
    requires n >= 0 && first >= 1
    ensures n / first < 1 <==> n < first
  {
    assert n == n / first * first + n % first;
    if n >= first && n / first < 1 { MulLeq(n / first, 0, first); }
    if n / first >= 1 { MulLeq(1, n / first, first); }
  }

  // For every request of less than ROOT^2 ticks, and any other whose first fitting divisor
  // is past the square root of its ticks: the search ends before its int counter overflows
  // if and only if EndsInInt.
  lemma EndsIff(x: real, freq: int, maxcnt: int)
    requires x >= 1.0 && freq > 0 && maxcnt >= 0
    requires x.Floor < ROOT * ROOT ||
      (maxcnt >= 1 && x.Floor <= FirstFit(x, maxcnt) * FirstFit(x, maxcnt))
    ensures StopsInInt(x, freq, maxcnt) <==> EndsInInt(x, freq, maxcnt)
  {
    if maxcnt >= 1 {
      var first := FirstFit(x, maxcnt);
      FirstFitIs(x, maxcnt);
      QuotientZero(x.Floor, first);
      if first > INT_MAX {
      } else if Lost(x, first) > freq as real {
        assert StopsAt(x, freq, maxcnt, first);
      } else if x.Floor < first {
        BrokenTicks(x, maxcnt, first);
        forall i | 1 <= i && Fits(x, 1, i) ensures Lost(x, i) == x { OneTickLoses(x, i); }
      } else {
        EndsAtTurn(x, freq, maxcnt, first, x.Floor / first, Turn(x.Floor, first));
      }
    }
  }

  lemma EndsAtTurn(x: real, freq: int, maxcnt: int, first: int, c: int, t: int)
    requires x >= 1.0 && freq > 0 && maxcnt >= 1 && 1 <= first <= x.Floor
    requires c == x.Floor / first >= 1 && t == Turn(x.Floor, first)
    requires Fits(x, maxcnt, first) && forall j :: j < first ==> !Fits(x, maxcnt, j)
    requires Lost(x, first) <= freq as real && (x.Floor < ROOT * ROOT || x.Floor <= first * first)
    ensures t >= 1
    ensures StopsInInt(x, freq, maxcnt) <==> t <= INT_MAX && (t == INT_MAX ==> Lost(x, t) == 0.0)
  {
    TurnIsTurn(x.Floor, first);
    if x.Floor <= first * first {
      QuotientBelowRoot(x.Floor, first);
      var stop := StopsAtTurn(x, freq, maxcnt, first, c, t);
    } else {
      if maxcnt == 1 { MulLeq(1, first, first); }
      StopsBeforeRoot(x, freq, maxcnt, first, c, t);
    }
  }

  // Up to 1 GHz a request of at most maxcnt seconds never overflows the counter.
  lemma GigahertzFitsInt(x: real, freq: int, maxcnt: int)
    requires x >= 1.0 && 0 < freq <= 1000000000 && 2 <= maxcnt < 0x1_0000_0000 && Fits(x, maxcnt, freq)
    ensures StopsInInt(x, freq, maxcnt)
  {
    var first := FirstFit(x, maxcnt);
    FirstFitIs(x, maxcnt);
    MulLeq(maxcnt, 0xFFFF_FFFF, freq);
    QuotientZero(x.Floor, first);
    if x.Floor < first { BrokenTicks(x, maxcnt, first); }
    TurnIsTurn(x.Floor, first);
    EndsIff(x, freq, maxcnt);
  }

  // 6,000,000 s on a 24 MHz timer of 16 bits: the first divisor that fits is larger than any
  // int, though some divisor would stop the search.
  lemma IntCanOverflow()
    ensures SearchEnds(144000000000000.0, 24000000, 65535) && !StopsInInt(144000000000000.0, 24000000, 65535)
  {
    EndsIff(144000000000000.0, 24000000, 65535);
  }

  // 0.75 s on a 2 Hz timer that counts a single tick: no divisor ever stops the loop, while at
  // 1 Hz the same 1.5 ticks are longer than a second and stop the search.
  lemma OneTickCounter()
    ensures forall i :: !StopsAt(1.5, 2, 1, i)
    ensures StopsAt(1.5, 1, 1, 2) && SearchFails(1.5, 1, 1)
  {
    SearchEndsIff(1.5, 2, 1);
    OneTickLoses(1.5, 2);
    assert Fits(1.5, 1, 2) && !Fits(1.5, 1, 1);
  }

  lemma CeilRoot(x: real) returns (s: int)
    requires x >= 1.0
    ensures s >= 1 && (s - 1) * (s - 1) <= x.Floor && x <= (s * s) as real
  {
    s := 1;
    while (s * s) as real < x
      invariant s >= 1 && (s - 1) * (s - 1) <= x.Floor
      decreases x.Floor - s * s
    {
      s := s + 1;
    }
  }

  lemma RootBound(s: int, b: int, n: int)
    requires s >= 1 && b >= 0 && (s - 1) * (s - 1) <= n < (b + 1) * (b + 1)
    ensures s <= b + 1
  {
    if s > b + 1 {
      MulLeq(b + 1, s - 1, b + 1);
      MulLeq(b + 1, s - 1, s - 1);
    }
  }
}
