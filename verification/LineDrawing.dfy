/** Integer lines drawn with a 16-bit decision variable, and the direction of their first step (game/nAlgo.h). */
module LineDrawing {
  // WORD is a number below 2^16, SWORD a number in [-2^15, 2^15); assigning a wider value keeps its
  // lowest 16 bits.

  import opened Arithmetic

  /** The number in [lo, lo + 2^16) with the lowest 16 bits of n. */
  function Wrap(n: int, lo: int): (r: int)
    ensures lo <= r < lo + 0x1_0000
    ensures lo <= n < lo + 0x1_0000 ==> r == n
    decreases if n < lo then lo - n else n - lo
  {
    if n < lo then (if lo - n <= 0x1_0000 then n + 0x1_0000 else Wrap(n + 0x1_0000, lo))
    else if n >= lo + 0x1_0000 then Wrap(n - 0x1_0000, lo)
    else n
  }

  function Word(n: int): int {
    Wrap(n, 0)
  }

  function Sword(n: int): int {
    Wrap(n, -0x8000)
  }

  lemma {:induction false} WrapTwice(a: int, b: int, lo: int)
    ensures Wrap(Wrap(a, lo) + b, lo) == Wrap(a + b, lo)
    decreases if a < lo then lo - a else a - lo
  {
    if a < lo {
      if lo - a > 0x1_0000 {
        WrapTwice(a + 0x1_0000, b, lo);
      }
    } else if a >= lo + 0x1_0000 {
      WrapTwice(a - 0x1_0000, b, lo);
    }
  }

  function Abs(n: int): nat {
    if n < 0 then -n else n
  }

  type Word16 = n: int | 0 <= n < 0x1_0000

  datatype Pos = Pos(x: Word16, y: Word16)

  datatype Dir = WRONG | UP | UPRIGHT | RIGHT | RIGHTDOWN | DOWN | DOWNLEFT | LEFT | LEFTUP

  /** ---- What a line should be ---- */

  function Major(begin: Pos, end: Pos): nat {
    var dx, dy := Abs(end.x - begin.x), Abs(end.y - begin.y);
    if dy > dx then dy else dx
  }

  function Minor(begin: Pos, end: Pos): (m: nat)
    ensures m <= Major(begin, end)
  {
    var dx, dy := Abs(end.x - begin.x), Abs(end.y - begin.y);
    if dy > dx then dx else dy
  }

  /** k is the whole number nearest to m * i / d, the larger one when there are two. */
  ghost predicate Nearest(d: nat, m: nat, i: nat, k: nat) {
    var n: int := d;
    -n <= 2 * (m * i) - 2 * (d * k) < n
  }

  lemma NearestIsOne(d: nat, m: nat, i: nat, k: nat, k': nat)
    requires Nearest(d, m, i, k) && Nearest(d, m, i, k')
    ensures k == k'
  {
    if k < k' {
      Spread(k, k', d);
    } else if k' < k {
      Spread(k', k, d);
    }
  }

  /** ---- The machine: position and decision variable ---- */

  datatype State = State(pos: Pos, p: int)

  datatype Line = Line(d: nat, m: nat, sx: int, sy: int, interchange: bool)

  function LineOf(begin: Pos, end: Pos): Line {
    Line(Major(begin, end), Minor(begin, end),
         if end.x > begin.x then 1 else -1, if end.y > begin.y then 1 else -1,
         Abs(end.y - begin.y) > Abs(end.x - begin.x))
  }

  /** A step along the longer side, with or without one along the shorter. */
  function Move(l: Line, pos: Pos, both: bool): Pos {
    if !l.interchange then Pos(Word(pos.x + l.sx), if both then Word(pos.y + l.sy) else pos.y)
    else Pos(if both then Word(pos.x + l.sx) else pos.x, Word(pos.y + l.sy))
  }

  function Step(l: Line, s: State): State {
    var q := if s.p >= 0 then Sword(s.p - 2 * l.d) else s.p;
    State(Move(l, s.pos, s.p >= 0), Sword(q + 2 * l.m))
  }

  function Run(l: Line, begin: Pos, i: nat): State {
    if i == 0 then State(begin, Sword(2 * l.m - l.d)) else Step(l, Run(l, begin, i - 1))
  }

  /** bresenhamLine: the first len + 1 points of the machine. */
  method BresenhamLine(begin: Pos, end: Pos, len: nat) returns (posVec: seq<Pos>)
    requires len < 0x100
    ensures |posVec| == len + 1
    ensures forall i {:trigger posVec[i]} :: 0 <= i <= len ==> posVec[i] == Run(LineOf(begin, end), begin, i).pos
  {
    var interchange := false;
    var deltaX, deltaY := Word(Abs(end.x - begin.x)), Word(Abs(end.y - begin.y));
    if deltaY > deltaX {
      deltaX, deltaY := deltaY, deltaX;
      interchange := true;
    }
    var sx, sy := if end.x > begin.x then 1 else -1, if end.y > begin.y then 1 else -1;
    posVec := DrawLoop(begin, len, deltaX, deltaY, sx, sy, interchange);
  }

  method DrawLoop(begin: Pos, len: nat, deltaX: nat, deltaY: nat, sx: int, sy: int, interchange: bool)
      returns (posVec: seq<Pos>)
    ensures |posVec| == len + 1
    ensures var l := Line(deltaX, deltaY, sx, sy, interchange);
            forall i {:trigger posVec[i]} :: 0 <= i <= len ==> posVec[i] == Run(l, begin, i).pos
  {
    ghost var l := Line(deltaX, deltaY, sx, sy, interchange);
    var p := Sword(2 * deltaY - deltaX);
    var x: Word16, y: Word16 := begin.x, begin.y;
    posVec := [];
    var i := 0;
    while i <= len
      invariant 0 <= i <= len + 1 && |posVec| == i
      invariant State(Pos(x, y), p) == Run(l, begin, i)
      invariant forall k {:trigger posVec[k]} :: 0 <= k < i ==> posVec[k] == Run(l, begin, k).pos
    {
      posVec := posVec + [Pos(x, y)];
      if p >= 0 {
        if !interchange {
          y := Word(y + sy);
        } else {
          x := Word(x + sx);
        }
        p := Sword(p - 2 * deltaX);
      }
      if !interchange {
        x := Word(x + sx);
      } else {
        y := Word(y + sy);
      }
      p := Sword(p + 2 * deltaY);
      i := i + 1;
    }
  }

  /** ---- The machine draws the line ---- */

  /** The decision variable has room for every value it takes. */
  ghost predicate Tame(d: nat, m: nat) {
    d - m <= 0x4000 && m <= 0x4000
  }

  /** i steps along the longer side and k along the shorter. */
  function At(l: Line, begin: Pos, i: nat, k: nat): Pos {
    if !l.interchange then Pos(Word(begin.x + l.sx * i), Word(begin.y + l.sy * k))
    else Pos(Word(begin.x + l.sx * k), Word(begin.y + l.sy * i))
  }

  function Decision(d: nat, m: nat, i: nat, k: nat): int {
    2 * (m * i) - 2 * (d * k) + 2 * m - d
  }

  /** The 16 bits of the value have its sign. */
  predicate SignHolds(value: int) {
    Sword(value) >= 0 <==> value >= 0
  }

  /** The range of the decision variable, and which of its values keep their sign in 16 bits.  With the longer side
  at most 2^14 every value fits, even between the two halves of a step, where it is smallest. */
  lemma DecisionFits(d: nat, m: nat, i: nat, k: nat)
    requires Nearest(d, m, i, k) && m <= d < 0x1_0000
    ensures var p := Decision(d, m, i, k);
            && 2 * m - 2 * d <= p < 2 * m
            && (!SignHolds(p) <==> p < -0x1_8000 || -0x1_0000 <= p < -0x8000 || 0x8000 <= p < 0x1_0000 || 0x1_8000 <= p)
            && (Tame(d, m) ==> -0x8000 <= p < 0x8000)
            && (d <= 0x4000 ==> Tame(d, m) && (p >= 0 ==> -0x8000 <= p - 2 * d < 0x8000))
  {
    var p := Decision(d, m, i, k);
    assert 2 * m - 2 * d <= p < 2 * m;
    SignHoldsWhen(p);
  }

  lemma SignHoldsWhen(p: int)
    requires -0x2_0000 <= p < 0x2_0000
    ensures !SignHolds(p) <==> p < -0x1_8000 || -0x1_0000 <= p < -0x8000 || 0x8000 <= p < 0x1_0000 || 0x1_8000 <= p
  {
    WrapPast(p);
  }

  lemma WrapPast(n: int)
    ensures 0x8000 <= n < 0x1_8000 ==> Sword(n) == n - 0x1_0000
    ensures -0x1_8000 <= n < -0x8000 ==> Sword(n) == n + 0x1_0000
    ensures 0x1_8000 <= n < 0x2_0000 ==> Sword(n) == n - 0x2_0000
    ensures -0x2_0000 <= n < -0x1_8000 ==> Sword(n) == n + 0x2_0000
  {
    if n >= 0x1_8000 {
      assert Sword(n) == Sword(n - 0x1_0000);
    } else if n < -0x1_8000 {
      assert Sword(n) == Sword(n + 0x1_0000);
    }
  }

  lemma DecisionStep(d: nat, m: nat, i: nat, k: nat)
    requires Nearest(d, m, i, k) && m <= d
    ensures var k' := if Decision(d, m, i, k) >= 0 then k + 1 else k;
            && Nearest(d, m, i + 1, k')
            && Decision(d, m, i + 1, k') == Decision(d, m, i, k) - (if k' > k then 2 * d else 0) + 2 * m
  {
    assert m * (i + 1) == m * i + m;
    assert d * (k + 1) == d * k + d;
  }

  lemma WordNext(from: int, sign: int, i: nat)
    ensures Word(Word(from + sign * i) + sign) == Word(from + sign * (i + 1))
  {
    assert sign * (i + 1) == sign * i + sign;
    WrapTwice(from + sign * i, sign, 0);
  }

  lemma AtNext(l: Line, begin: Pos, i: nat, k: nat, both: bool)
    ensures Move(l, At(l, begin, i, k), both) == At(l, begin, i + 1, if both then k + 1 else k)
  {
    if !l.interchange {
      WordNext(begin.x, l.sx, i);
      WordNext(begin.y, l.sy, k);
    } else {
      WordNext(begin.x, l.sx, k);
      WordNext(begin.y, l.sy, i);
    }
  }

  /** How many of the first i steps of the ideal line go aside. */
  function Steps(d: nat, m: nat, i: nat): nat {
    if i == 0 then 0
    else
      var k := Steps(d, m, i - 1);
      if Decision(d, m, i - 1, k) >= 0 then k + 1 else k
  }

  /** Of that line: the decision variable after i steps, in full width. */
  function Exact(d: nat, m: nat, i: nat): int {
    Decision(d, m, i, Steps(d, m, i))
  }

  lemma {:induction false} StepsAreNearest(d: nat, m: nat, i: nat)
    requires 0 < d && m <= d
    ensures Nearest(d, m, i, Steps(d, m, i))
  {
    if i > 0 {
      StepsAreNearest(d, m, i - 1);
      DecisionStep(d, m, i - 1, Steps(d, m, i - 1));
    }
  }

  /** In the first n steps the sign of the decision variable survives in 16 bits. */
  predicate SignsHold(d: nat, m: nat, n: nat) {
    n == 0 || (SignsHold(d, m, n - 1) && SignHolds(Exact(d, m, n - 1)))
  }

  lemma {:induction false} TameSignsHold(d: nat, m: nat, n: nat)
    requires 0 < d && m <= d < 0x1_0000 && Tame(d, m)
    ensures SignsHold(d, m, n) && Sword(Exact(d, m, n)) == Exact(d, m, n)
  {
    StepsAreNearest(d, m, n);
    DecisionFits(d, m, n, Steps(d, m, n));
    if n > 0 {
      TameSignsHold(d, m, n - 1);
    }
  }

  lemma StepDraws(l: Line, begin: Pos, i: nat, k: nat)
    ensures var p := Decision(l.d, l.m, i, k);
            var s := Step(l, State(At(l, begin, i, k), Sword(p)));
            var k' := if Sword(p) >= 0 then k + 1 else k;
            s == State(At(l, begin, i + 1, k'), Sword(Decision(l.d, l.m, i + 1, k')))
  {
    var p := Decision(l.d, l.m, i, k);
    var both := Sword(p) >= 0;
    AtNext(l, begin, i, k, both);
    WrapTwice(p, -2 * l.d, -0x8000);
    WrapTwice(p - 2 * l.d, 2 * l.m, -0x8000);
    WrapTwice(p, 2 * l.m, -0x8000);
    DecisionNext(l.d, l.m, i, k);
  }

  lemma DecisionNext(d: nat, m: nat, i: nat, k: nat)
    ensures Decision(d, m, i + 1, k) == Decision(d, m, i, k) + 2 * m
    ensures Decision(d, m, i + 1, k + 1) == Decision(d, m, i, k) - 2 * d + 2 * m
  {
    assert m * (i + 1) == m * i + m;
    assert d * (k + 1) == d * k + d;
  }

  /** As long as the sign survives the machine is where the ideal line is. */
  lemma {:induction false} ExactRun(l: Line, begin: Pos, n: nat)
    requires SignsHold(l.d, l.m, n)
    ensures Run(l, begin, n) == State(At(l, begin, n, Steps(l.d, l.m, n)), Sword(Exact(l.d, l.m, n)))
  {
    if n > 0 {
      ExactRun(l, begin, n - 1);
      StepDraws(l, begin, n - 1, Steps(l.d, l.m, n - 1));
    }
  }

  /** A step aside makes a difference, also across the edge of the plane. */
  lemma AsideDiffers(l: Line, begin: Pos, i: nat, k: nat)
    requires (l.sx == 1 || l.sx == -1) && (l.sy == 1 || l.sy == -1)
    ensures At(l, begin, i, k) != At(l, begin, i, k + 1)
  {
    WordNext(begin.x, l.sx, k);
    WordNext(begin.y, l.sy, k);
  }

  /** The first n points are those nearest to the ideal line. */
  predicate Drawn(l: Line, begin: Pos, n: nat) {
    Run(l, begin, n).pos == At(l, begin, n, Steps(l.d, l.m, n)) && (n > 0 ==> Drawn(l, begin, n - 1))
  }

  lemma RunNext(l: Line, begin: Pos, n: nat)
    requires SignsHold(l.d, l.m, n)
    ensures var k := Steps(l.d, l.m, n);
            Run(l, begin, n + 1).pos == At(l, begin, n + 1, if Sword(Exact(l.d, l.m, n)) >= 0 then k + 1 else k)
  {
    ExactRun(l, begin, n);
    assert Run(l, begin, n + 1) == Step(l, Run(l, begin, n));
    StepDraws(l, begin, n, Steps(l.d, l.m, n));
  }

  lemma NextDrawn(l: Line, begin: Pos, n: nat)
    requires (l.sx == 1 || l.sx == -1) && (l.sy == 1 || l.sy == -1) && SignsHold(l.d, l.m, n)
    ensures Run(l, begin, n + 1).pos == At(l, begin, n + 1, Steps(l.d, l.m, n + 1)) <==> SignHolds(Exact(l.d, l.m, n))
  {
    var k := Steps(l.d, l.m, n);
    RunNext(l, begin, n);
    AsideDiffers(l, begin, n + 1, k);
    assert Steps(l.d, l.m, n + 1) == if Exact(l.d, l.m, n) >= 0 then k + 1 else k;
  }

  /** For every line: the points drawn are the nearest ones exactly as long as the sign of the decision variable
  survives in 16 bits. */
  lemma {:induction false} DrawsTheLine(l: Line, begin: Pos, n: nat)
    requires (l.sx == 1 || l.sx == -1) && (l.sy == 1 || l.sy == -1)
    ensures Drawn(l, begin, n) <==> SignsHold(l.d, l.m, n)
  {
    if n > 0 {
      DrawsTheLine(l, begin, n - 1);
      if SignsHold(l.d, l.m, n - 1) {
        NextDrawn(l, begin, n - 1);
      }
    } else {
      assert At(l, begin, 0, 0) == begin;
    }
  }

  /** ---- Which lines are drawn right as a whole ---- */

  /** d and m are g times p and n, which have no common divisor. */
  ghost predicate Parts(d: nat, m: nat, g: nat, p: nat, n: nat) {
    d == g * p && m == g * n && g > 0 && p > 0
  }

  function Rest(g: nat, p: nat): (r: nat)
    ensures r == 0 || r == g
  {
    if p % 2 == 0 then 0 else g
  }

  /** The least and the greatest value of the decision variable along a whole line; in between it takes every
  value at a distance of 2 * g. */
  function Least(d: nat, m: nat, g: nat, p: nat): int {
    2 * m - 2 * d + Rest(g, p)
  }

  function Greatest(d: nat, m: nat, g: nat, p: nat): int {
    2 * m - 2 * g + Rest(g, p)
  }

  lemma ValueAs(d: nat, m: nat, g: nat, p: nat, n: nat, i: nat, k: int)
    requires Parts(d, m, g, p, n)
    ensures 2 * (m * i) - 2 * (d * k) + d == Rest(g, p) + 2 * (g * (n * i - p * k + p / 2))
  {
    assert m * i == g * (n * i) && d * k == g * (p * k);
    HalfOf(g, p);
    Distribute(g, n * i, p * k, p / 2);
  }

  lemma HalfOf(g: nat, p: nat)
    ensures g * p == 2 * (g * (p / 2)) + Rest(g, p)
  {
    assert p == 2 * (p / 2) + p % 2;
    assert g * p == g * (2 * (p / 2)) + g * (p % 2);
  }

  lemma Distribute(g: int, a: int, b: int, c: int)
    ensures g * (a - b + c) == g * a - g * b + g * c
  {
  }

  lemma Between(g: nat, x: int, p: nat, v: int)
    requires g > 0 && v == Rest(g, p) + 2 * (g * x) && 0 <= v < 2 * (g * p)
    ensures 0 <= x < p && Rest(g, p) <= v <= Rest(g, p) + 2 * (g * p) - 2 * g
  {
    if x < 0 {
      Spread(x, 0, g);
    } else if x > p {
      Spread(p, x, g);
    }
    if 0 < x {
      AtLeast(x, g);
    }
    if x < p {
      Spread(x, p, g);
    }
  }

  lemma ExactRange(d: nat, m: nat, i: nat)
    requires 0 < d && m <= d
    ensures 2 * m - 2 * d <= Exact(d, m, i) < 2 * m
  {
    StepsAreNearest(d, m, i);
  }

  /** Along the line the variable takes only such values. */
  lemma ValueWithin(d: nat, m: nat, g: nat, p: nat, n: nat, i: nat)
    requires Parts(d, m, g, p, n) && m <= d
    ensures Least(d, m, g, p) <= Exact(d, m, i) <= Greatest(d, m, g, p)
  {
    var k := Steps(d, m, i);
    AtLeast(p, g);
    ExactRange(d, m, i);
    ValueAs(d, m, g, p, n, i, k);
    Between(g, n * i - p * k + p / 2, p, Exact(d, m, i) - 2 * m + 2 * d);
  }

  /** And it takes all of them, each in one of the first p steps. */
  lemma ValueReached(d: nat, m: nat, g: nat, p: nat, n: nat, u: int, w: int, x: nat) returns (i: nat)
    requires Parts(d, m, g, p, n) && m <= d && n * u + p * w == 1 && x < p
    ensures i < d && Exact(d, m, i) == Least(d, m, g, p) + 2 * (g * x)
  {
    var k: int;
    i, k := Reach(p, n, u, w, x - p / 2);
    AtLeast(g, p);
    AtLeast(p, g);
    ValueAs(d, m, g, p, n, i, k);
    Spread(x, p, g);
    StandsAt(d, m, i, k, Rest(g, p) + 2 * (g * x));
  }

  /** What the variable is follows from where the line is. */
  lemma StandsAt(d: nat, m: nat, i: nat, k: int, v: nat)
    requires 0 < d && m <= d && 2 * (m * i) - 2 * (d * k) + d == v < 2 * d
    ensures Exact(d, m, i) == 2 * m - 2 * d + v
  {
    if k < 0 {
      Spread(k, 0, d);
    }
    StepsAreNearest(d, m, i);
    NearestIsOne(d, m, i, k, Steps(d, m, i));
  }

  lemma {:induction false} SignsHoldAt(d: nat, m: nat, n: nat, i: nat)
    requires SignsHold(d, m, n) && i < n
    ensures SignHolds(Exact(d, m, i))
  {
    if i < n - 1 {
      SignsHoldAt(d, m, n - 1, i);
    }
  }

  lemma {:induction false} SmallSignsHold(d: nat, m: nat, g: nat, p: nat, n: nat, k: nat)
    requires Parts(d, m, g, p, n) && m <= d
    requires -0x8000 <= Least(d, m, g, p) && Greatest(d, m, g, p) < 0x8000
    ensures SignsHold(d, m, k)
  {
    if k > 0 {
      SmallSignsHold(d, m, g, p, n, k - 1);
      ValueWithin(d, m, g, p, n, k - 1);
    }
  }

  /** Among values at a distance of at most 2^15 that pass an edge there is one within 2^15 of it. */
  lemma PassesAbove(low: int, g: nat, p: nat) returns (x: nat)
    requires 0 < g <= 0x4000 && p > 0 && low < 0x8000 <= low + 2 * (g * (p - 1))
    ensures x < p && 0x8000 <= low + 2 * (g * x) < 0x1_0000
  {
    x := 0;
    while x < p - 1 && low + 2 * (g * x) < 0x8000
      invariant x < p && low + 2 * (g * x) < 0x1_0000
    {
      assert g * (x + 1) == g * x + g;
      x := x + 1;
    }
  }

  lemma PassesBelow(low: int, g: nat, p: nat) returns (x: nat)
    requires 0 < g <= 0x4000 && p > 0 && low < -0x8000 <= low + 2 * (g * (p - 1))
    ensures x < p && -0x1_0000 <= low + 2 * (g * x) < -0x8000
  {
    x := p - 1;
    while x > 0 && low + 2 * (g * x) >= -0x8000
      invariant x < p && low + 2 * (g * x) >= -0x1_0000
    {
      assert g * x == g * (x - 1) + g;
      x := x - 1;
    }
  }

  /** With so large a divisor the line is p <= 3 times it, and no value is more than the longer side. */
  lemma LargeDivisor(d: nat, m: nat, g: nat, p: nat, n: nat, u: int, w: int)
    requires Parts(d, m, g, p, n) && m <= d < 0x1_0000 && g > 0x4000 && n * u + p * w == 1
    ensures -0x1_0000 < Least(d, m, g, p) && Greatest(d, m, g, p) < 0x1_0000
  {
    if p > 3 {
      Spread(3, p, g);
    }
    if n > p {
      Spread(p, n, g);
    }
    if n == p > 1 {
      NoUnit(p, u + w);
    }
    if n == 0 && p > 1 {
      NoUnit(p, w);
    }
  }

  lemma NoUnit(p: nat, y: int)
    requires p > 1
    ensures p * y != 1
  {
    if y > 0 {
      AtLeast(y, p);
    } else {
      AtLeast(1 - y, p);
    }
  }

  /** A value that leaves the range is taken where its sign is lost. */
  lemma SignLost(d: nat, m: nat, g: nat, p: nat, n: nat, u: int, w: int) returns (i: nat)
    requires Parts(d, m, g, p, n) && m <= d < 0x1_0000 && n * u + p * w == 1
    requires Least(d, m, g, p) < -0x8000 || 0x8000 <= Greatest(d, m, g, p)
    ensures i < d && !SignHolds(Exact(d, m, i))
  {
    var low: int, x: nat := Least(d, m, g, p), 0;
    LastValue(d, m, g, p);
    if g > 0x4000 {
      LargeDivisor(d, m, g, p, n, u, w);
      x := if low < -0x8000 then 0 else p - 1;
    } else if low < -0x8000 {
      x := PassesBelow(low, g, p);
    } else {
      x := PassesAbove(low, g, p);
    }
    i := ValueReached(d, m, g, p, n, u, w, x);
    SignHoldsWhen(low + 2 * (g * x));
  }

  lemma LastValue(d: nat, m: nat, g: nat, p: nat)
    requires d == g * p && p > 0 && m <= d
    ensures Least(d, m, g, p) + 2 * (g * (p - 1)) == Greatest(d, m, g, p)
    ensures Least(d, m, g, p) <= g && -2 * g <= Greatest(d, m, g, p)
  {
    assert g * (p - 1) == g * p - g;
  }

  /** Least and greatest value fit into 16 bits. */
  ghost predicate AllFit(d: nat, m: nat)
    requires d > 0
  {
    var g := Gcd(d, m);
    -0x8000 <= Least(d, m, g, d / g) && Greatest(d, m, g, d / g) < 0x8000
  }

  /** The sign survives along a whole line exactly when the least and the greatest value fit into 16 bits. */
  lemma WholeLineSigns(d: nat, m: nat)
    requires 0 < d < 0x1_0000 && m <= d
    ensures SignsHold(d, m, d) <==> AllFit(d, m)
  {
    var g := Gcd(d, m);
    var p, n, u, w := GcdParts(d, m);
    assert g * p == p * g + 0;
    Quotient(d, g, p, 0);
    if -0x8000 <= Least(d, m, g, p) && Greatest(d, m, g, p) < 0x8000 {
      SmallSignsHold(d, m, g, p, n, d);
    } else {
      var i := SignLost(d, m, g, p, n, u, w);
      if SignsHold(d, m, d) {
        SignsHoldAt(d, m, d, i);
      }
    }
  }

  function Toward(from: int, sign: int, i: int): int {
    if sign == 1 then from + i else from - i
  }

  /** The point i steps towards the end, k of them with a step aside, in plain numbers. */
  predicate IsPoint(begin: Pos, end: Pos, i: nat, k: nat, pos: Pos) {
    var l := LineOf(begin, end);
    if !l.interchange then pos.x == Toward(begin.x, l.sx, i) && pos.y == Toward(begin.y, l.sy, k)
    else pos.x == Toward(begin.x, l.sx, k) && pos.y == Toward(begin.y, l.sy, i)
  }

  lemma StaysInside(d: nat, m: nat, i: nat, k: nat)
    requires 0 < d && m <= d && i <= d && Nearest(d, m, i, k)
    ensures k <= m && k <= i && (i == d ==> k == m)
  {
    if k > m {
      Spread(m, k, d);
      assert m * i <= m * d == d * m by { Product(m, i, d); }
    }
    if k > i {
      Spread(i, k, d);
      assert m * i <= d * i by { Product(i, m, d); }
    }
    if i == d && k < m {
      Spread(k, m, d);
    }
  }

  lemma Product(a: nat, b: nat, c: nat)
    requires b <= c
    ensures a * b <= a * c && a * b == b * a && a * c == c * a
  {
  }

  lemma Signed(s: int, i: int)
    requires s == 1 || s == -1
    ensures s * i == if s == 1 then i else -i
  {
  }

  /** The first n + 1 points are, in plain numbers, the ones nearest to the ideal line. */
  ghost predicate DrawnPlainly(begin: Pos, end: Pos, n: nat) {
    var d, m := Major(begin, end), Minor(begin, end);
    && IsPoint(begin, end, n, Steps(d, m, n), Run(LineOf(begin, end), begin, n).pos)
    && (n > 0 ==> DrawnPlainly(begin, end, n - 1))
  }

  lemma PlainPoint(begin: Pos, end: Pos, i: nat, pos: Pos)
    requires begin != end && i <= Major(begin, end)
    ensures var d, m := Major(begin, end), Minor(begin, end);
            var k := Steps(d, m, i);
            && Nearest(d, m, i, k) && k <= m && (i == d ==> k == m)
            && (IsPoint(begin, end, i, k, pos) <==> pos == At(LineOf(begin, end), begin, i, k))
  {
    var d, m := Major(begin, end), Minor(begin, end);
    StepsAreNearest(d, m, i);
    StaysInside(d, m, i, Steps(d, m, i));
    PointIs(begin, end, i, Steps(d, m, i), pos);
  }

  /** Between begin and end no coordinate wraps. */
  lemma PointIs(begin: Pos, end: Pos, i: nat, k: nat, pos: Pos)
    requires i <= Major(begin, end) && k <= Minor(begin, end)
    ensures IsPoint(begin, end, i, k, pos) <==> pos == At(LineOf(begin, end), begin, i, k)
  {
    var l := LineOf(begin, end);
    Signed(l.sx, i);
    Signed(l.sx, k);
    Signed(l.sy, i);
    Signed(l.sy, k);
  }

  lemma PlainRun(begin: Pos, end: Pos, i: nat)
    requires begin != end && i <= Major(begin, end) && SignsHold(Major(begin, end), Minor(begin, end), i)
    ensures var k := Steps(Major(begin, end), Minor(begin, end), i);
            IsPoint(begin, end, i, k, Run(LineOf(begin, end), begin, i).pos)
  {
    ExactRun(LineOf(begin, end), begin, i);
    PlainPoint(begin, end, i, Run(LineOf(begin, end), begin, i).pos);
  }

  lemma {:induction false} PlainlyDrawn(begin: Pos, end: Pos, n: nat)
    requires begin != end && n <= Major(begin, end)
    ensures DrawnPlainly(begin, end, n) <==> Drawn(LineOf(begin, end), begin, n)
  {
    PlainPoint(begin, end, n, Run(LineOf(begin, end), begin, n).pos);
    if n > 0 {
      PlainlyDrawn(begin, end, n - 1);
    }
  }

  /** The line drawn, up to its end: every point is the one nearest to the ideal line, the first is the beginning
  and the last the end, exactly when the sign of the decision variable survives in 16 bits; and so it
  does whenever neither the shorter side nor the difference of the two is more than 2^14. */
  lemma LineTheorem(begin: Pos, end: Pos, n: nat)
    requires begin != end && n <= Major(begin, end)
    ensures var d, m, pos := Major(begin, end), Minor(begin, end), Run(LineOf(begin, end), begin, n).pos;
            && (DrawnPlainly(begin, end, n) <==> SignsHold(d, m, n))
            && (Tame(d, m) ==> SignsHold(d, m, n))
            && Nearest(d, m, n, Steps(d, m, n)) && Steps(d, m, n) <= m
            && (SignsHold(d, m, n) ==> (n == 0 ==> pos == begin) && (n == d ==> pos == end))
  {
    var l := LineOf(begin, end);
    var pos := Run(l, begin, n).pos;
    PlainlyDrawn(begin, end, n);
    DrawsTheLine(l, begin, n);
    PlainPoint(begin, end, n, pos);
    if Tame(l.d, l.m) {
      TameSignsHold(l.d, l.m, n);
    }
    if SignsHold(l.d, l.m, n) {
      assert IsPoint(begin, end, n, Steps(l.d, l.m, n), pos);
    }
  }

  /** A whole line is drawn right exactly when the least and the greatest value of its decision variable fit into
  16 bits.  They follow from its two sides and their greatest common divisor. */
  lemma WholeLine(begin: Pos, end: Pos)
    requires Major(begin, end) > 0
    ensures DrawnPlainly(begin, end, Major(begin, end)) <==> AllFit(Major(begin, end), Minor(begin, end))
  {
    var d, m := Major(begin, end), Minor(begin, end);
    LineTheorem(begin, end, d);
    WholeLineSigns(d, m);
  }

  /** From a point to itself, the machine drifts off: every step is one back along both axes. */
  lemma {:induction false} PointDrifts(begin: Pos, i: nat)
    ensures Run(LineOf(begin, begin), begin, i) == State(Pos(Word(begin.x - i), Word(begin.y - i)), 0)
  {
    if i > 0 {
      PointDrifts(begin, i - 1);
      WrapTwice(begin.x - (i - 1), -1, 0);
      WrapTwice(begin.y - (i - 1), -1, 0);
    }
  }

  /** For every line and every step, beyond the end too: the next point is another one and, on the plane whose
  edges meet, one of the eight neighbours; in plain numbers too, as long as the line is drawn as it should. */
  lemma NextIsNeighbour(begin: Pos, end: Pos, i: nat)
    ensures var l := LineOf(begin, end);
            var a, b := Run(l, begin, i).pos, Run(l, begin, i + 1).pos;
            && a != b && Abs(Sword(b.x - a.x)) <= 1 && Abs(Sword(b.y - a.y)) <= 1
            && (i < Major(begin, end) && SignsHold(Major(begin, end), Minor(begin, end), i + 1) ==>
                  Abs(b.x - a.x) <= 1 && Abs(b.y - a.y) <= 1)
  {
    var l := LineOf(begin, end);
    var s := Run(l, begin, i);
    assert Run(l, begin, i + 1) == Step(l, s);
    MoveIsNeighbour(l, s.pos, s.p >= 0);
    if i < l.d && SignsHold(l.d, l.m, i + 1) {
      PlainlyNext(begin, end, i);
    }
  }

  lemma PlainlyNext(begin: Pos, end: Pos, i: nat)
    requires i < Major(begin, end) && SignsHold(Major(begin, end), Minor(begin, end), i + 1)
    ensures var a, b := Run(LineOf(begin, end), begin, i).pos, Run(LineOf(begin, end), begin, i + 1).pos;
            Abs(b.x - a.x) <= 1 && Abs(b.y - a.y) <= 1
  {
    var l, d, m := LineOf(begin, end), Major(begin, end), Minor(begin, end);
    PlainRun(begin, end, i);
    PlainRun(begin, end, i + 1);
    var k, k' := Steps(d, m, i), Steps(d, m, i + 1);
    PointsAreNeighbours(begin, end, i, k, k', Run(l, begin, i).pos, Run(l, begin, i + 1).pos);
  }

  lemma PointsAreNeighbours(begin: Pos, end: Pos, i: nat, k: nat, k': nat, a: Pos, b: Pos)
    requires IsPoint(begin, end, i, k, a) && IsPoint(begin, end, i + 1, k', b) && k <= k' <= k + 1
    ensures Abs(b.x - a.x) <= 1 && Abs(b.y - a.y) <= 1
  {
  }

  lemma MoveIsNeighbour(l: Line, a: Pos, both: bool)
    requires (l.sx == 1 || l.sx == -1) && (l.sy == 1 || l.sy == -1)
    ensures var b := Move(l, a, both); a != b && Abs(Sword(b.x - a.x)) <= 1 && Abs(Sword(b.y - a.y)) <= 1
  {
    WrapPast(Word(a.x + l.sx) - a.x);
    WrapPast(Word(a.y + l.sy) - a.y);
  }

  /** ---- The direction of the first step ---- */

  /** getDirect: from the signs of the two differences. */
  function Direct(begin: Pos, pos: Pos): Dir {
    var dX, dY := Sword(pos.x - begin.x), Sword(pos.y - begin.y);
    if dX == 0 then (if dY == 0 then WRONG else if dY < 0 then UP else DOWN)
    else if dX < 0 then (if dY == 0 then LEFT else if dY < 0 then LEFTUP else DOWNLEFT)
    else (if dY == 0 then RIGHT else if dY < 0 then UPRIGHT else RIGHTDOWN)
  }

  /** MoveDirectAdjust (protocol/commonType.h): what a step in a direction adds. */
  function Adjust(d: Dir): (int, int) {
    match d
    case UP => (0, -1)
    case UPRIGHT => (1, -1)
    case RIGHT => (1, 0)
    case RIGHTDOWN => (1, 1)
    case DOWN => (0, 1)
    case DOWNLEFT => (-1, 1)
    case LEFT => (-1, 0)
    case LEFTUP => (-1, -1)
    case WRONG => (0, 0)
  }

  /** The point one step away, on the plane whose edges meet. */
  function Towards(a: Pos, d: Dir): Pos {
    Pos(Word(a.x + Adjust(d).0), Word(a.y + Adjust(d).1))
  }

  /** Direction and step are inverse to each other: the direction of the point one step away in a direction is that
  direction, and one step in the direction of a neighbour leads to it. */
  lemma StepInDirection(a: Pos, d: Dir)
    ensures Direct(a, Towards(a, d)) == d
  {
    WrapPast(Word(a.x + Adjust(d).0) - a.x);
    WrapPast(Word(a.y + Adjust(d).1) - a.y);
  }

  lemma NeighbourInDirection(a: Pos, b: Pos)
    requires Abs(Sword(b.x - a.x)) <= 1 && Abs(Sword(b.y - a.y)) <= 1
    ensures Towards(a, Direct(a, b)) == b
  {
    NeighbourAxis(a.x, b.x);
    NeighbourAxis(a.y, b.y);
  }

  lemma NeighbourAxis(u: Word16, v: Word16)
    requires Abs(Sword(v - u)) <= 1
    ensures Word(u + Sword(v - u)) == v
  {
    WrapPast(v - u);
  }

  /** As long as the line is drawn as it should, one step in the direction that getLineDirect gives leads to its next
  point. */
  lemma LineDirectLeads(begin: Pos, end: Pos)
    requires begin != end && -0x8000 <= 2 * Minor(begin, end) - Major(begin, end) < 0x8000
    ensures Towards(begin, LineDirect(begin, end)) == Run(LineOf(begin, end), begin, 1).pos
  {
    var next := Run(LineOf(begin, end), begin, 1).pos;
    FirstMove(begin, end);
    NextIsNeighbour(begin, end, 0);
    assert Run(LineOf(begin, end), begin, 0).pos == begin;
    NeighbourInDirection(begin, next);
  }

  /** getLineDirect. */
  function LineDirect(begin: Pos, pos: Pos): Dir {
    var deltaX, deltaY := pos.x - begin.x, pos.y - begin.y;
    var stepX, stepY := if deltaX < 0 then -1 else 1, if deltaY < 0 then -1 else 1;
    var dx, dy := Abs(deltaX), Abs(deltaY);
    if dy > dx then
      if dx * 2 - dy >= 0 then Direct(begin, Pos(Word(begin.x + stepX), Word(begin.y + stepY)))
      else Direct(begin, Pos(begin.x, Word(begin.y + stepY)))
    else
      if dy * 2 - dx >= 0 then Direct(begin, Pos(Word(begin.x + stepX), Word(begin.y + stepY)))
      else Direct(begin, Pos(Word(begin.x + stepX), begin.y))
  }

  /** The first step of the line goes where getLineDirect says exactly when the ends differ and the first
  value of the decision variable, computed there in full width, fits into 16 bits. */
  lemma FirstMove(begin: Pos, end: Pos)
    ensures Direct(begin, Run(LineOf(begin, end), begin, 1).pos) == LineDirect(begin, end)
       <==> begin != end && -0x8000 <= 2 * Minor(begin, end) - Major(begin, end) < 0x8000
  {
    var l := LineOf(begin, end);
    var p := 2 * l.m - l.d;
    var s0 := Run(l, begin, 0);
    assert s0 == State(begin, Sword(p));
    assert Run(l, begin, 1) == Step(l, s0);
    FirstStep(begin, end, Sword(p) >= 0);
  }

  lemma FirstStep(begin: Pos, end: Pos, both: bool)
    ensures var same := both <==> 2 * Minor(begin, end) - Major(begin, end) >= 0;
            var there := Direct(begin, Move(LineOf(begin, end), begin, both)) == LineDirect(begin, end);
            if begin == end then both ==> !there else same <==> there
  {
  }
}
