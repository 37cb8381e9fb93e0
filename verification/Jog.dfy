/** The arithmetic of jogging: stick response, segment deltas, soft limits and queue timing.
    Times and durations are whole nanoseconds, time 0 being the zero time; positions are reals. */
module Jog {
  type Time = int
  type Duration = int

  const MS: Duration := 1_000_000
  const MINUTE: real := 60_000_000_000.0

  const DEADZONE: real := 0.12
  const SLOW_SCALE: real := 0.2

  datatype Axes = Axes(x: real, y: real, z: real, a: real)

  const STILL := Axes(0.0, 0.0, 0.0, 0.0)

  datatype Axis = X | Y | Z | A

  /** A position; axes may be missing, and the empty position is none at all. */
  type Position = map<Axis, real>

  datatype Config = Config(maxXY: real, maxZ: real, maxA: real, tick: Duration, statusInterval: Duration,
                           deadman: Duration)

  function Normalize(c: Config): (n: Config)
    ensures n.maxXY > 0.0 && n.maxZ > 0.0 && n.maxA > 0.0
    ensures n.tick >= 5 * MS && n.statusInterval >= 100 * MS && n.deadman >= 300 * MS
  {
    var tick := if c.tick <= 0 then 20 * MS else c.tick;
    var status := if c.statusInterval <= 0 then 100 * MS else c.statusInterval;
    var deadman := if c.deadman <= 0 then 300 * MS else c.deadman;
    Config(if c.maxXY <= 0.0 then 3000.0 else c.maxXY,
           if c.maxZ <= 0.0 then 300.0 else c.maxZ,
           if c.maxA <= 0.0 then 3600.0 else c.maxA,
           if tick < 5 * MS then 5 * MS else tick,
           if status < 100 * MS then 100 * MS else status,
           if deadman < 300 * MS then 300 * MS else deadman)
  }

  /** The settings in force are settings already in force, and a setting that may stand does. */
  lemma NormalizeSettles(c: Config)
    ensures Normalize(Normalize(c)) == Normalize(c)
    ensures c.maxXY > 0.0 && c.maxZ > 0.0 && c.maxA > 0.0 ==>
              c.tick >= 5 * MS && c.statusInterval >= 100 * MS && c.deadman >= 300 * MS ==> Normalize(c) == c
    ensures Normalize(Config(0.0, 0.0, 0.0, 0, 0, 0)) == Config(3000.0, 300.0, 3600.0, 20 * MS, 100 * MS, 300 * MS)
  {
  }

  // ----- Timing -----

  function Clamp(d: Duration, low: Duration, high: Duration): Duration
    requires low <= high
  {
    if d < low then low else if d > high then high else d
  }

  function SegmentDuration(c: Config): Duration {
    Clamp(4 * Normalize(c).tick, 60 * MS, 100 * MS)
  }

  function Lookahead(c: Config): Duration {
    Clamp(2 * SegmentDuration(c), 120 * MS, 180 * MS)
  }

  /** `r` is the duration between the two bounds that is nearest to what was asked. */
  ghost predicate NearestDuration(r: Duration, asked: Duration, low: Duration, high: Duration) {
    low <= r <= high && (r < asked ==> r == high) && (r > asked ==> r == low)
  }

  /** A segment lasts four ticks, within 60 and 100 ms, and the queue is filled for two segments, within 120
      and 180 ms; a report may be 1.7 s to 2.75 s old, or as old as the deadman allows. */
  lemma TimingShape(c: Config)
    ensures NearestDuration(SegmentDuration(c), 4 * Normalize(c).tick, 60 * MS, 100 * MS)
    ensures NearestDuration(Lookahead(c), 2 * SegmentDuration(c), 120 * MS, 180 * MS)
    ensures var age := ActiveStatusMaxAge(c);
            age >= 1700 * MS && age >= Normalize(c).deadman
            && (age <= 2750 * MS || age == Normalize(c).deadman)
  {
  }

  /** For any configuration the refill threshold and one segment come to at most 280 ms. */
  lemma LeadBudget(c: Config)
    ensures Lookahead(c) + SegmentDuration(c) <= 280 * MS
    ensures 0 < SegmentDuration(c) <= Lookahead(c)
  {
  }

  function QueueLead(now: Time, until: Time): Duration {
    if until == 0 || until <= now then 0 else until - now
  }

  /** The end of a segment appended to the queue. */
  function NextEnd(now: Time, until: Time, segment: Duration): Time {
    (if until < now then now else until) + segment
  }

  /** A segment admitted under the threshold and written no earlier leaves at most the threshold and
      one segment queued. */
  lemma LeadAfterSegment(admitAt: Time, writtenAt: Time, until: Time, lookahead: Duration, segment: Duration)
    requires 0 < admitAt <= writtenAt && QueueLead(admitAt, until) < lookahead && segment > 0
    ensures QueueLead(writtenAt, NextEnd(writtenAt, until, segment)) <= lookahead + segment
  {
  }

  // ----- Stick response -----

  function Abs(v: real): real {
    if v < 0.0 then -v else v
  }

  function Response(v: real): real {
    var w := if v > 1.0 then 1.0 else if v < -1.0 then -1.0 else v;
    var sign := if w < 0.0 then -1.0 else 1.0;
    var m := Abs(w);
    if m < DEADZONE then 0.0 else Cube(sign, (m - DEADZONE) / (1.0 - DEADZONE))
  }

  function Cube(sign: real, n: real): real {
    sign * n * n * n
  }

  lemma NotNegative(a: real, b: real)
    requires a >= 0.0 && b >= 0.0
    ensures a * b >= 0.0
  {
  }

  lemma Shrinks(a: real, k: real)
    requires a <= 1.0 && k >= 0.0
    ensures a * k <= k
  {
    NotNegative(1.0 - a, k);
    assert (1.0 - a) * k == k - a * k;
  }

  lemma CubeBounds(n: real)
    requires 0.0 <= n <= 1.0
    ensures Cube(-1.0, n) == -Cube(1.0, n) && 0.0 <= Cube(1.0, n) <= 1.0 && (Cube(1.0, n) == 0.0 <==> n == 0.0)
  {
    var s := n * n;
    var t := s * n;
    Shrinks(n, n);
    assert s <= n;
    NotNegative(n, n);
    Shrinks(s, n);
    NotNegative(s, n);
    assert Cube(1.0, n) == t && Cube(-1.0, n) == -t;
    if n != 0.0 {
      assert n * n > 0.0;
      assert t > 0.0;
    }
  }

  /** The response is odd, never above full scale, and zero exactly inside the dead zone. */
  lemma ResponseShape(v: real)
    ensures Response(-v) == -Response(v)
    ensures -1.0 <= Response(v) <= 1.0
    ensures Response(v) == 0.0 <==> Abs(v) <= 0.12
    ensures v > 0.0 ==> Response(v) >= 0.0
  {
    var w := if v > 1.0 then 1.0 else if v < -1.0 then -1.0 else v;
    var m := Abs(w);
    if m >= DEADZONE {
      var n := (m - DEADZONE) / (1.0 - DEADZONE);
      assert 0.0 <= n <= 1.0;
      CubeBounds(n);
      hide Cube;
    }
  }

  // ----- Deltas -----

  function Minutes(d: Duration): real {
    d as real / MINUTE
  }

  /** Where the source takes a hypotenuse the model takes its value, `mag`. */
  predicate IsHypot(mag: real, x: real, y: real) {
    mag >= 0.0 && mag * mag == x * x + y * y
  }

  function Unit(v: real, mag: real): real {
    if mag > 1.0 then v / mag else v
  }

  function Scale(slow: bool): real {
    if slow then SLOW_SCALE else 1.0
  }

  /** How far an axis moves in d at the fraction u of its top speed per minute. */
  function Travel(u: real, top: real, d: Duration, slow: bool): real {
    u * top * Minutes(d) * Scale(slow)
  }

  /** The farthest an axis may move in d. */
  function Reach(top: real, d: Duration): real {
    top * Minutes(d)
  }

  function NormalizeForDuration(axes: Axes, slow: bool, c: Config, d: Duration, mag: real): Axes {
    var n := Normalize(c);
    var x := Response(axes.x);
    var y := Response(axes.y);
    Axes(Travel(Unit(x, mag), n.maxXY, d, slow), Travel(Unit(y, mag), n.maxXY, d, slow),
         Travel(Response(axes.z), n.maxZ, d, slow), Travel(Response(axes.a), n.maxA, d, slow))
  }

  function MotionDelta(axes: Axes, slow: bool, c: Config, mag: real): Axes {
    NormalizeForDuration(axes, slow, c, SegmentDuration(c), mag)
  }

  function Square(a: real): real {
    a * a
  }

  lemma SquareOfProduct(a: real, b: real)
    ensures Square(a * b) == Square(a) * Square(b)
  {
  }

  lemma SquareOfQuotient(a: real, b: real)
    requires b != 0.0
    ensures Square(a / b) * Square(b) == Square(a)
  {
    SquareOfProduct(a / b, b);
    assert a / b * b == a;
  }

  lemma SumShrinks(p: real, q: real, k: real)
    requires p + q <= 1.0 && k >= 0.0
    ensures p * k + q * k <= k
  {
    NotNegative(1.0 - (p + q), k);
    assert (1.0 - (p + q)) * k == k - p * k - q * k;
  }

  lemma SumScales(a: real, b: real, k: real, s: real)
    requires a + b <= k && 0.0 <= k && 0.0 <= s <= 1.0
    ensures a * s + b * s <= k
  {
    NotNegative(k - (a + b), s);
    assert (k - (a + b)) * s == k * s - a * s - b * s;
    Shrinks(s, k);
  }

  lemma SpeedBound(ux: real, uy: real, m: real, t: real, s: real)
    requires Square(ux) + Square(uy) <= 1.0 && 0.0 <= Square(s) <= 1.0
    ensures Square(ux * m * t * s) + Square(uy * m * t * s) <= Square(m * t)
  {
    hide Square;
    Product(ux, m, t, s);
    Product(uy, m, t, s);
    SquareNotNegative(m * t);
    SumShrinks(Square(ux), Square(uy), Square(m * t));
    SumScales(Square(ux) * Square(m * t), Square(uy) * Square(m * t), Square(m * t), Square(s));
  }

  lemma TravelBound(ux: real, uy: real, top: real, d: Duration, slow: bool)
    requires Square(ux) + Square(uy) <= 1.0
    ensures Square(Travel(ux, top, d, slow)) + Square(Travel(uy, top, d, slow)) <= Square(Reach(top, d))
  {
    SmallSquare(Scale(slow));
    SquareNotNegative(Scale(slow));
    hide Square, Minutes, Scale;
    SpeedBound(ux, uy, top, Minutes(d), Scale(slow));
  }

  /** The planar speed never exceeds the configured maximum, whatever the stick says. */
  lemma PlanarSpeedBound(axes: Axes, slow: bool, c: Config, d: Duration, mag: real)
    requires IsHypot(mag, Response(axes.x), Response(axes.y)) && d >= 0
    ensures var r := NormalizeForDuration(axes, slow, c, d, mag);
            Square(r.x) + Square(r.y) <= Square(Reach(Normalize(c).maxXY, d))
  {
    hide Square, Response, Normalize, Unit, Travel, Reach, IsHypot;
    UnitCircle(Response(axes.x), Response(axes.y), mag);
    TravelBound(Unit(Response(axes.x), mag), Unit(Response(axes.y), mag), Normalize(c).maxXY, d, slow);
  }

  /** How far an axis moves in d at full deflection. */
  function FullStep(top: real, d: Duration, slow: bool): real {
    Reach(top, d) * Scale(slow)
  }

  function Least(a: real, b: real): real {
    if a < b then a else b
  }

  /** It is exactly the stick's deflection, up to full, times that maximum, slowed or not. */
  lemma PlanarSpeed(axes: Axes, slow: bool, c: Config, d: Duration, mag: real)
    requires IsHypot(mag, Response(axes.x), Response(axes.y))
    ensures var r := NormalizeForDuration(axes, slow, c, d, mag);
            Square(r.x) + Square(r.y) == Square(Least(1.0, mag)) * Square(FullStep(Normalize(c).maxXY, d, slow))
  {
    hide Square, Response, Normalize, Unit, Travel, FullStep, IsHypot, Least;
    var x, y := Response(axes.x), Response(axes.y);
    UnitLength(x, y, mag);
    TravelIs(Unit(x, mag), Normalize(c).maxXY, d, slow);
    TravelIs(Unit(y, mag), Normalize(c).maxXY, d, slow);
    var top := Normalize(c).maxXY;
    SquaresScale(Travel(Unit(x, mag), top, d, slow), Travel(Unit(y, mag), top, d, slow), Unit(x, mag), Unit(y, mag),
                 FullStep(top, d, slow), Square(Least(1.0, mag)));
  }

  lemma SquaresScale(p: real, q: real, a: real, b: real, k: real, sum: real)
    requires p == a * k && q == b * k && Square(a) + Square(b) == sum
    ensures Square(p) + Square(q) == sum * Square(k)
  {
    SquareScales(p, a, k);
    SquareScales(q, b, k);
    hide Square;
    Distribute(Square(a), Square(b), Square(k), sum);
  }

  lemma SquareScales(p: real, a: real, k: real)
    requires p == a * k
    ensures Square(p) == Square(a) * Square(k)
  {
  }

  lemma Distribute(a: real, b: real, k: real, sum: real)
    requires a + b == sum
    ensures a * k + b * k == sum * k
  {
  }

  lemma UnitLength(x: real, y: real, mag: real)
    requires IsHypot(mag, x, y)
    ensures Square(Unit(x, mag)) + Square(Unit(y, mag)) == Square(Least(1.0, mag))
  {
    HypotSquares(x, y, mag);
    hide Square, IsHypot;
    if mag > 1.0 {
      BigSquare(mag);
      SquareOfQuotient(x, mag);
      SquareOfQuotient(y, mag);
      QuotientOne(Square(x / mag), Square(y / mag), Square(mag), Square(x), Square(y));
      assert Square(1.0) == 1.0 by { OneSquared(); }
    }
  }

  lemma OneSquared()
    ensures Square(1.0) == 1.0
  {
  }

  lemma SquareNotNegative(a: real)
    ensures Square(a) >= 0.0
  {
    if a >= 0.0 {
      NotNegative(a, a);
    } else {
      NotNegative(-a, -a);
    }
  }

  lemma Product(u: real, m: real, t: real, s: real)
    ensures Square(u * m * t * s) == (Square(u) * Square(m * t)) * Square(s)
  {
    assert u * m * t * s == (u * (m * t)) * s;
    SquareOfProduct(u * (m * t), s);
    SquareOfProduct(u, m * t);
  }

  lemma HypotSquares(x: real, y: real, mag: real)
    requires IsHypot(mag, x, y)
    ensures Square(mag) == Square(x) + Square(y)
  {
  }

  lemma BigSquare(a: real)
    requires a > 1.0
    ensures Square(a) > 1.0
  {
    NotNegative(a - 1.0, a);
    assert (a - 1.0) * a == a * a - a;
  }

  lemma SmallSquare(a: real)
    requires 0.0 <= a <= 1.0
    ensures Square(a) <= 1.0
  {
    Shrinks(a, a);
  }

  lemma UnitCircle(x: real, y: real, mag: real)
    requires IsHypot(mag, x, y)
    ensures Square(Unit(x, mag)) + Square(Unit(y, mag)) <= 1.0
  {
    HypotSquares(x, y, mag);
    assert mag >= 0.0;
    hide Square, IsHypot;
    if mag > 1.0 {
      BigSquare(mag);
      SquareOfQuotient(x, mag);
      SquareOfQuotient(y, mag);
      QuotientOne(Square(x / mag), Square(y / mag), Square(mag), Square(x), Square(y));
    } else {
      SmallSquare(mag);
    }
  }

  lemma QuotientOne(p: real, q: real, m: real, a: real, b: real)
    requires m > 0.0 && p * m == a && q * m == b && a + b == m
    ensures p + q == 1.0
  {
    assert (p + q) * m == a + b;
  }

  // ----- Each axis -----

  lemma Positive(a: real, b: real)
    requires a > 0.0 && b > 0.0
    ensures a * b > 0.0
  {
  }

  /** An axis moves the way its stick points, by at most its share of the top speed: not at all exactly
      inside the dead zone, and fully, or a fifth of that when slow, at full deflection. */
  ghost predicate MovesWith(move: real, stick: real, reach: real, slow: bool) {
    && (move == 0.0 <==> Abs(stick) <= DEADZONE)
    && (move > 0.0 ==> stick > 0.0) && (move < 0.0 ==> stick < 0.0)
    && 0.0 <= Abs(move) <= (if slow then reach / 5.0 else reach)
  }

  ghost predicate MovesFully(move: real, stick: real, reach: real, slow: bool) {
    && (stick >= 1.0 ==> move == if slow then reach / 5.0 else reach)
    && (stick <= -1.0 ==> move == if slow then -reach / 5.0 else -reach)
  }

  /** Top speeds are distances a minute. */
  lemma ReachOfMinute(top: real, minutes: nat)
    ensures Reach(top, minutes * 60_000 * MS) == top * minutes as real
  {
    assert Minutes(minutes * 60_000 * MS) == minutes as real;
  }

  lemma ReachPositive(top: real, d: Duration)
    requires top > 0.0 && d > 0
    ensures Reach(top, d) > 0.0
  {
    assert Minutes(d) > 0.0;
    Positive(top, Minutes(d));
  }

  lemma TravelIs(u: real, top: real, d: Duration, slow: bool)
    ensures Travel(u, top, d, slow) == u * FullStep(top, d, slow)
  {
  }

  /** A fraction u of a positive distance. */
  lemma FractionOf(u: real, r: real, p: real)
    requires r > 0.0 && -1.0 <= u <= 1.0 && p == u * r
    ensures (p == 0.0 <==> u == 0.0) && (p > 0.0 <==> u > 0.0) && Abs(p) <= r
    ensures (u == 1.0 ==> p == r) && (u == -1.0 ==> p == -r)
  {
    if u >= 0.0 {
      PositiveFraction(u, r, p);
    } else {
      NegatedProduct(u, r, p);
      PositiveFraction(-u, r, -p);
    }
  }

  lemma PositiveFraction(u: real, r: real, p: real)
    requires r > 0.0 && 0.0 <= u <= 1.0 && p == u * r
    ensures (p == 0.0 <==> u == 0.0) && 0.0 <= p <= r
  {
    Shrinks(u, r);
    if u > 0.0 {
      Positive(u, r);
    }
  }

  lemma NegatedProduct(a: real, b: real, p: real)
    requires p == a * b
    ensures -p == (-a) * b
  {
  }

  lemma FullStepIs(top: real, d: Duration, slow: bool)
    requires top > 0.0 && d > 0
    ensures FullStep(top, d, slow) == if slow then Reach(top, d) / 5.0 else Reach(top, d)
    ensures FullStep(top, d, slow) > 0.0
  {
    ReachPositive(top, d);
  }

  lemma ResponseSign(v: real)
    ensures (Response(v) > 0.0 ==> v > 0.0) && (Response(v) < 0.0 ==> v < 0.0)
    ensures v >= 1.0 ==> Response(v) == 1.0
    ensures v <= -1.0 ==> Response(v) == -1.0
  {
    ResponseShape(v);
    ResponseShape(-v);
    FullScale();
    if v >= 1.0 {
      assert Response(v) == Response(1.0);
    } else if v <= -1.0 {
      assert Response(v) == Response(-1.0);
    }
  }

  lemma FullScale()
    ensures Response(1.0) == 1.0 && Response(-1.0) == -1.0
  {
  }

  /** Beyond the dead zone the response is the cube of the rest of the way. */
  lemma ResponseCubes(n: real)
    requires 0.0 <= n <= 1.0
    ensures Response(0.12 + n * 0.88) == n * n * n
  {
    var v := DEADZONE + n * (1.0 - DEADZONE);
    assert 0.0 <= v <= 1.0;
    assert (v - DEADZONE) / (1.0 - DEADZONE) == n;
  }

  /** What moves the axis is a fraction of the top speed with the sign of its stick's response. */
  lemma AxisMoves(u: real, stick: real, top: real, d: Duration, slow: bool)
    requires top > 0.0 && d > 0 && -1.0 <= u <= 1.0
    requires (u == 0.0 <==> Response(stick) == 0.0) && (u > 0.0 <==> Response(stick) > 0.0)
    ensures MovesWith(Travel(u, top, d, slow), stick, Reach(top, d), slow)
    ensures u == Response(stick) ==> MovesFully(Travel(u, top, d, slow), stick, Reach(top, d), slow)
  {
    hide Response, Travel, Reach, FullStep;
    ResponseShape(stick);
    ResponseSign(stick);
    TravelIs(u, top, d, slow);
    FullStepIs(top, d, slow);
    FractionOf(u, FullStep(top, d, slow), Travel(u, top, d, slow));
  }

  lemma UnitFraction(x: real, y: real, mag: real)
    requires IsHypot(mag, x, y)
    ensures -1.0 <= Unit(x, mag) <= 1.0 && -1.0 <= Unit(y, mag) <= 1.0
    ensures Unit(x, mag) == 0.0 <==> x == 0.0
    ensures Unit(x, mag) > 0.0 <==> x > 0.0
    ensures Unit(y, mag) == 0.0 <==> y == 0.0
    ensures Unit(y, mag) > 0.0 <==> y > 0.0
  {
    UnitCircle(x, y, mag);
    AtMostOne(Unit(x, mag), Unit(y, mag));
    AtMostOne(Unit(y, mag), Unit(x, mag));
    hide IsHypot;
    if mag > 1.0 {
      QuotientSign(x, mag);
      QuotientSign(y, mag);
    }
  }

  lemma AtMostOne(a: real, b: real)
    requires Square(a) + Square(b) <= 1.0
    ensures -1.0 <= a <= 1.0
  {
    SquareNotNegative(b);
    if a > 1.0 {
      BigSquare(a);
    } else if a < -1.0 {
      BigSquare(-a);
    }
  }

  lemma QuotientSign(a: real, m: real)
    requires m > 0.0
    ensures (a / m == 0.0 <==> a == 0.0) && (a / m > 0.0 <==> a > 0.0)
  {
  }

  /** What one segment asks of each axis: the plane shares one top speed and keeps the stick's direction. */
  lemma AxesMove(axes: Axes, slow: bool, c: Config, mag: real)
    requires IsHypot(mag, Response(axes.x), Response(axes.y))
    ensures var m := MotionDelta(axes, slow, c, mag);
            var n := Normalize(c);
            var d := SegmentDuration(c);
            && MovesWith(m.x, axes.x, Reach(n.maxXY, d), slow) && MovesWith(m.y, axes.y, Reach(n.maxXY, d), slow)
            && MovesWith(m.z, axes.z, Reach(n.maxZ, d), slow) && MovesFully(m.z, axes.z, Reach(n.maxZ, d), slow)
            && MovesWith(m.a, axes.a, Reach(n.maxA, d), slow) && MovesFully(m.a, axes.a, Reach(n.maxA, d), slow)
            && (mag <= 1.0 ==> MovesFully(m.x, axes.x, Reach(n.maxXY, d), slow)
                               && MovesFully(m.y, axes.y, Reach(n.maxXY, d), slow))
            && m.x * Response(axes.y) == m.y * Response(axes.x)
            && m.z == Response(axes.z) * FullStep(n.maxZ, d, slow)
            && m.a == Response(axes.a) * FullStep(n.maxA, d, slow)
  {
    hide Response, Travel, Reach, FullStep, IsHypot, MovesWith, MovesFully, SegmentDuration, Unit, Lookahead, Normalize;
    var n, d := Normalize(c), SegmentDuration(c);
    LeadBudget(c);
    UnitFraction(Response(axes.x), Response(axes.y), mag);
    ResponseShape(axes.z);
    ResponseShape(axes.a);
    UnitIs(Response(axes.x), mag);
    UnitIs(Response(axes.y), mag);
    AxisMoves(Unit(Response(axes.x), mag), axes.x, n.maxXY, d, slow);
    AxisMoves(Unit(Response(axes.y), mag), axes.y, n.maxXY, d, slow);
    AxisMoves(Response(axes.z), axes.z, n.maxZ, d, slow);
    AxisMoves(Response(axes.a), axes.a, n.maxA, d, slow);
    SameDirection(Response(axes.x), Response(axes.y), mag, n.maxXY, d, slow);
    TravelIs(Response(axes.z), n.maxZ, d, slow);
    TravelIs(Response(axes.a), n.maxA, d, slow);
  }

  lemma UnitIs(u: real, mag: real)
    ensures mag <= 1.0 ==> Unit(u, mag) == u
  {
  }

  lemma SameDirection(x: real, y: real, mag: real, top: real, d: Duration, slow: bool)
    ensures Travel(Unit(x, mag), top, d, slow) * y == Travel(Unit(y, mag), top, d, slow) * x
  {
    hide Unit, Travel, FullStep;
    TravelIs(Unit(x, mag), top, d, slow);
    TravelIs(Unit(y, mag), top, d, slow);
    CrossUnit(x, y, mag);
    CrossScaled(Unit(x, mag), y, Unit(y, mag), x, FullStep(top, d, slow));
  }

  lemma CrossUnit(x: real, y: real, mag: real)
    ensures Unit(x, mag) * y == Unit(y, mag) * x
  {
    if mag > 1.0 {
      assert x / mag * y == x * y / mag;
      assert y / mag * x == x * y / mag;
    }
  }

  lemma CrossScaled(a: real, b: real, c: real, d: real, k: real)
    requires a * b == c * d
    ensures (a * k) * b == (c * k) * d
  {
    assert (a * k) * b == (a * b) * k && (c * k) * d == (c * d) * k;
  }

  // ----- Input -----

  datatype Input = Input(axes: Axes, deadman: bool, slow: bool, at: Time)

  predicate Deflected(a: Axes) {
    Response(a.x) != 0.0 || Response(a.y) != 0.0 || Response(a.z) != 0.0 || Response(a.a) != 0.0
  }

  predicate MotionInputActive(have: bool, input: Input, now: Time, c: Config) {
    have && input.deadman && now - input.at <= Normalize(c).deadman && Deflected(input.axes)
  }

  // ----- Positions -----

  function Get(p: Position, axis: Axis): real {
    if axis in p then p[axis] else 0.0
  }

  function AxesOf(p: Position): Axes {
    Axes(Get(p, X), Get(p, Y), Get(p, Z), Get(p, A))
  }

  function Plus(a: Axes, b: Axes): Axes {
    Axes(a.x + b.x, a.y + b.y, a.z + b.z, a.a + b.a)
  }

  function Minus(a: Axes, b: Axes): Axes {
    Axes(a.x - b.x, a.y - b.y, a.z - b.z, a.a - b.a)
  }

  function MoveBy(p: Position, d: Axes): Position {
    var q := p[X := Get(p, X) + d.x][Y := Get(p, Y) + d.y][Z := Get(p, Z) + d.z];
    if d.a != 0.0 then q[A := Get(p, A) + d.a] else q
  }

  datatype Range = Range(min: real, max: real)

  datatype SoftLimits = SoftLimits(enabled: bool, x: Range, y: Range, z: Range)

  /** One axis is clamped only if its range is valid and the start lies in it. */
  function ClampAxis(from: Position, target: Position, axis: Axis, r: Range): (t: Position)
    ensures t.Keys == target.Keys
  {
    if axis !in from || axis !in target || r.min >= r.max || from[axis] < r.min || from[axis] > r.max then target
    else if target[axis] < r.min then target[axis := r.min]
    else if target[axis] > r.max then target[axis := r.max]
    else target
  }

  function ClampJogTarget(from: Position, target: Position, l: SoftLimits): (t: Position)
    ensures t.Keys == target.Keys
  {
    if !l.enabled || from == map[] || target == map[] then target
    else ClampAxis(from, ClampAxis(from, ClampAxis(from, target, X, l.x), Y, l.y), Z, l.z)
  }

  function NextTarget(planned: Position, d: Axes, l: SoftLimits): Position {
    ClampJogTarget(planned, MoveBy(planned, d), l)
  }

  function AxesDelta(from: Position, target: Position): Axes {
    Minus(AxesOf(target), AxesOf(from))
  }

  predicate Inside(p: Position, axis: Axis, r: Range) {
    axis in p && r.min < r.max && r.min <= p[axis] <= r.max
  }

  /** b lies between 0 and a. */
  predicate NoFarther(b: real, a: real) {
    (0.0 <= b <= a) || (a <= b <= 0.0)
  }

  lemma ClampAxisShorter(from: Position, target: Position, axis: Axis, r: Range)
    ensures var t := ClampAxis(from, target, axis, r);
            && NoFarther(Get(t, axis) - Get(from, axis), Get(target, axis) - Get(from, axis))
            && forall other: Axis | other != axis :: Get(t, other) == Get(target, other)
  {
  }

  lemma MoveByAxes(p: Position, d: Axes)
    ensures AxesOf(MoveBy(p, d)) == Plus(AxesOf(p), d)
  {
  }

  /** Clamping shortens each component of a move, and never turns it round. */
  lemma SegmentShorter(planned: Position, d: Axes, l: SoftLimits)
    ensures var s := AxesDelta(planned, NextTarget(planned, d, l));
            NoFarther(s.x, d.x) && NoFarther(s.y, d.y) && NoFarther(s.z, d.z) && s.a == d.a
  {
    hide ClampAxis, MoveBy, Get;
    var t := MoveBy(planned, d);
    var tx := ClampAxis(planned, t, X, l.x);
    var ty := ClampAxis(planned, tx, Y, l.y);
    MoveByAxes(planned, d);
    ClampAxisShorter(planned, t, X, l.x);
    ClampAxisShorter(planned, tx, Y, l.y);
    ClampAxisShorter(planned, ty, Z, l.z);
  }

  /** A plan inside the limits stays inside them, axis by axis. */
  lemma StaysInside(planned: Position, d: Axes, l: SoftLimits)
    requires l.enabled
    ensures var t := NextTarget(planned, d, l);
            && (Inside(planned, X, l.x) ==> Inside(t, X, l.x))
            && (Inside(planned, Y, l.y) ==> Inside(t, Y, l.y))
            && (Inside(planned, Z, l.z) ==> Inside(t, Z, l.z))
  {
  }

  /** On an axis whose range holds the plan the target is the point of the range nearest to what was asked;
      on any other it is what was asked. */
  ghost predicate NearestTo(t: real, asked: real, r: Range) {
    r.min <= t <= r.max && (t < asked ==> t == r.max) && (t > asked ==> t == r.min)
  }

  ghost predicate ClampedTo(t: Position, planned: Position, asked: Position, axis: Axis, r: Range) {
    if Inside(planned, axis, r) then NearestTo(Get(t, axis), Get(asked, axis), r)
    else Get(t, axis) == Get(asked, axis)
  }

  lemma ClampAxisNearest(from: Position, target: Position, axis: Axis, r: Range)
    requires axis in target
    ensures ClampedTo(ClampAxis(from, target, axis, r), from, target, axis, r)
    ensures forall other: Axis | other != axis ::
              Get(ClampAxis(from, target, axis, r), other) == Get(target, other)
  {
  }

  lemma TargetIsNearest(planned: Position, d: Axes, l: SoftLimits)
    ensures var asked, t := MoveBy(planned, d), NextTarget(planned, d, l);
            && AxesOf(asked) == Plus(AxesOf(planned), d) && Get(t, A) == Get(asked, A)
            && (l.enabled && planned != map[] ==>
                  && ClampedTo(t, planned, asked, X, l.x) && ClampedTo(t, planned, asked, Y, l.y)
                  && ClampedTo(t, planned, asked, Z, l.z))
            && (!l.enabled || planned == map[] ==> t == asked)
  {
    hide ClampAxis, NearestTo, MoveBy;
    MoveByAxes(planned, d);
    var asked := MoveBy(planned, d);
    MoveByKeys(planned, d);
    if l.enabled && planned != map[] {
      var tx := ClampAxis(planned, asked, X, l.x);
      var ty := ClampAxis(planned, tx, Y, l.y);
      ClampAxisNearest(planned, asked, X, l.x);
      ClampAxisNearest(planned, tx, Y, l.y);
      ClampAxisNearest(planned, ty, Z, l.z);
    }
  }

  lemma MoveByKeys(p: Position, d: Axes)
    ensures {X, Y, Z} <= MoveBy(p, d).Keys <= p.Keys + {X, Y, Z, A}
    ensures A in MoveBy(p, d) <==> A in p || d.a != 0.0
  {
  }

  lemma ShorterSquare(b: real, a: real)
    requires NoFarther(b, a)
    ensures Square(b) <= Square(a)
  {
    if 0.0 <= b <= a {
      NotNegative(a - b, a);
      NotNegative(a - b, b);
      assert (a - b) * a == a * a - b * a;
      assert (a - b) * b == a * b - b * b;
    } else {
      NotNegative(b - a, -a);
      NotNegative(b - a, -b);
      assert (b - a) * (-a) == a * a - b * a;
      assert (b - a) * (-b) == a * b - b * b;
    }
  }

  /** What is sent for one segment keeps to the planar maximum, clamped or not. */
  lemma SegmentSpeedBound(planned: Position, input: Input, c: Config, l: SoftLimits, mag: real)
    requires IsHypot(mag, Response(input.axes.x), Response(input.axes.y))
    ensures var s := AxesDelta(planned, NextTarget(planned, MotionDelta(input.axes, input.slow, c, mag), l));
            Square(s.x) + Square(s.y) <= Square(Reach(Normalize(c).maxXY, SegmentDuration(c)))
  {
    hide Square, NextTarget, AxesDelta, NormalizeForDuration, Normalize, SegmentDuration, Reach;
    var d := MotionDelta(input.axes, input.slow, c, mag);
    LeadBudget(c);
    PlanarSpeedBound(input.axes, input.slow, c, SegmentDuration(c), mag);
    SegmentShorter(planned, d, l);
    var s := AxesDelta(planned, NextTarget(planned, d, l));
    ShorterSquare(s.x, d.x);
    ShorterSquare(s.y, d.y);
  }

  /** An axis moves only if its stick is outside the dead zone, that way, and within reach. */
  predicate Follows(move: real, stick: real, reach: real) {
    (move > 0.0 ==> stick > DEADZONE) && (move < 0.0 ==> stick < -DEADZONE) && Abs(move) <= reach
  }

  lemma ShorterFollows(move: real, asked: real, stick: real, reach: real, slow: bool)
    requires NoFarther(move, asked) && MovesWith(asked, stick, reach, slow) && reach >= 0.0
    ensures Follows(move, stick, reach)
  {
  }

  /** Every axis of a segment follows its own stick, up to its own top speed. */
  ghost predicate AllFollow(s: Axes, stick: Axes, c: Config) {
    var n, d := Normalize(c), SegmentDuration(c);
    && Follows(s.x, stick.x, Reach(n.maxXY, d)) && Follows(s.y, stick.y, Reach(n.maxXY, d))
    && Follows(s.z, stick.z, Reach(n.maxZ, d)) && Follows(s.a, stick.a, Reach(n.maxA, d))
  }

  lemma SegmentFollows(planned: Position, input: Input, c: Config, l: SoftLimits, mag: real)
    requires IsHypot(mag, Response(input.axes.x), Response(input.axes.y))
    ensures var s := AxesDelta(planned, NextTarget(planned, MotionDelta(input.axes, input.slow, c, mag), l));
            AllFollow(s, input.axes, c)
  {
    hide NextTarget, AxesDelta, MotionDelta, Normalize, SegmentDuration, Lookahead, Reach, MovesWith, MovesFully,
      Follows, Response, IsHypot, FullStep;
    var m := MotionDelta(input.axes, input.slow, c, mag);
    var s := AxesDelta(planned, NextTarget(planned, m, l));
    var n, d := Normalize(c), SegmentDuration(c);
    LeadBudget(c);
    AxesMove(input.axes, input.slow, c, mag);
    SegmentShorter(planned, m, l);
    ReachPositive(n.maxXY, d);
    ReachPositive(n.maxZ, d);
    ReachPositive(n.maxA, d);
    Unshortened(m.a);
    ShorterFollows(s.x, m.x, input.axes.x, Reach(n.maxXY, d), input.slow);
    ShorterFollows(s.y, m.y, input.axes.y, Reach(n.maxXY, d), input.slow);
    ShorterFollows(s.z, m.z, input.axes.z, Reach(n.maxZ, d), input.slow);
    ShorterFollows(s.a, m.a, input.axes.a, Reach(n.maxA, d), input.slow);
  }

  lemma Unshortened(a: real)
    ensures NoFarther(a, a)
  {
  }

  // ----- Physical lead -----

  function AtLeast(a: real, b: real): real {
    if a < b then b else a
  }

  predicate TooFar(target: Position, observed: Position, axis: Axis, limit: real) {
    axis !in target || axis !in observed || Abs(target[axis] - observed[axis]) > limit
  }

  /** Whether the target is farther from the observed position than the queue accounts for. */
  predicate JogLeadTooLarge(target: Position, observed: Position, c: Config) {
    var n := Normalize(c);
    var window := Lookahead(c) + SegmentDuration(c);
    if target == map[] || observed == map[] then true
    else if TooFar(target, observed, X, AtLeast(Reach(n.maxXY, window), 2.5)) then true
    else if TooFar(target, observed, Y, AtLeast(Reach(n.maxXY, window), 2.5)) then true
    else if TooFar(target, observed, Z, AtLeast(Reach(n.maxZ, window), 1.0)) then true
    else if A !in target && A !in observed then false
    else TooFar(target, observed, A, AtLeast(Reach(n.maxA, window), 8.0))
  }

  /** Each axis of the target is within what the queue accounts for, or a fixed margin, of the observed
      position.  Only the rotary axis may be missing, and then on both sides. */
  predicate WithinReach(to: Position, at: Position, c: Config) {
    var n, window := Normalize(c), Lookahead(c) + SegmentDuration(c);
    && X in to && X in at && Abs(to[X] - at[X]) <= AtLeast(Reach(n.maxXY, window), 2.5)
    && Y in to && Y in at && Abs(to[Y] - at[Y]) <= AtLeast(Reach(n.maxXY, window), 2.5)
    && Z in to && Z in at && Abs(to[Z] - at[Z]) <= AtLeast(Reach(n.maxZ, window), 1.0)
    && (A in to <==> A in at) && (A in to ==> Abs(to[A] - at[A]) <= AtLeast(Reach(n.maxA, window), 8.0))
  }

  lemma LeadTooLargeIs(to: Position, at: Position, c: Config)
    ensures JogLeadTooLarge(to, at, c) <==> !WithinReach(to, at, c)
  {
    hide Normalize, Lookahead, SegmentDuration, Reach, Abs, AtLeast;
  }

  lemma ReachGrows(top: real, d: Duration, e: Duration)
    requires top > 0.0 && 0 < d <= e
    ensures 0.0 < Reach(top, d) <= Reach(top, e)
  {
    ReachPositive(top, d);
    NotNegative(top, Minutes(e) - Minutes(d));
    assert top * (Minutes(e) - Minutes(d)) == top * Minutes(e) - top * Minutes(d);
  }

  /** From where the machine is, one segment of the stick is within reach. */
  lemma StepWithinReach(p: Position, axes: Axes, slow: bool, c: Config, mag: real)
    requires IsHypot(mag, Response(axes.x), Response(axes.y)) && X in p && Y in p && Z in p
    requires A in p || Abs(axes.a) <= DEADZONE
    ensures WithinReach(MoveBy(p, MotionDelta(axes, slow, c, mag)), p, c)
  {
    hide NormalizeForDuration, Response, IsHypot, MovesFully, Normalize, Lookahead, SegmentDuration, Reach, FullStep;
    var d, n := MotionDelta(axes, slow, c, mag), Normalize(c);
    var one, window := SegmentDuration(c), Lookahead(c) + SegmentDuration(c);
    AxesMove(axes, slow, c, mag);
    LeadBudget(c);
    ReachGrows(n.maxXY, one, window);
    ReachGrows(n.maxZ, one, window);
    ReachGrows(n.maxA, one, window);
  }

  predicate PhysicalLeadCheckDue(now: Time, observedAt: Time, c: Config) {
    observedAt == 0 || 0 <= now - observedAt <= 2 * Normalize(c).tick
  }

  function ActiveStatusMaxAge(c: Config): Duration {
    var n := Normalize(c);
    var timeout := Clamp(2 * n.statusInterval, 100 * MS, 250 * MS);
    var age := Clamp(8 * n.statusInterval, 1000 * MS, 2000 * MS) + timeout + 500 * MS;
    if age < n.deadman then n.deadman else age
  }
}
