/**
 Exchanging two neighbouring blocks of an argument vector in place, by as many
 cycles as the lengths of the blocks have a greatest common divisor.  The cycles are
 the orbits of subtracting one length modulo the sum of both.
 */
module Rotation {

  // ---------------------------------------------------------------- the greatest common divisor

  function Gcd(a: nat, b: nat): (g: nat)
    requires b > 0
    ensures 0 < g <= b
    decreases b
  {
    if a % b == 0 then b else Gcd(b, a % b)
  }

  predicate Divides(d: nat, m: int)
    requires d > 0
  {
    m % d == 0
  }

  method ComputeGcd(a0: nat, b0: nat) returns (g: nat)
    requires b0 > 0
    ensures g == Gcd(a0, b0) && 0 < g <= b0
    ensures Divides(g, a0) && Divides(g, b0)
    ensures forall d: nat :: d > 0 && Divides(d, a0) && Divides(d, b0) ==> Divides(d, g)
  {
    var a, b := a0, b0;
    var c := a % b;
    while c != 0
      invariant b > 0 && c == a % b && Gcd(a, b) == Gcd(a0, b0)
      decreases c
    {
      a := b;
      b := c;
      c := a % b;
    }
    g := b;
    GcdIsGreatest(a0, b0);
  }

  lemma DivMod(x: int, g: nat)
    requires g > 0
    ensures x == g * (x / g) + x % g && 0 <= x % g < g
  {
  }

  /** Quotient and remainder are unique. */
  lemma ModUnique(x: int, g: nat, q: int, r: int)
    requires g > 0 && 0 <= r < g && x == g * q + r
    ensures x % g == r
  {
    DivMod(x, g);
    SmallMultiple(g, x / g - q, r - x % g);
  }

  lemma MulGrows(g: int, k: int)
    requires g > 0
    ensures k >= 1 ==> g * k >= g
    ensures k <= -1 ==> g * k <= -g
    ensures k == 0 ==> g * k == 0
  {
  }

  lemma SmallMultiple(g: int, k: int, m: int)
    requires g > 0 && g * k == m && -g < m < g
    ensures k == 0 && m == 0
  {
    MulGrows(g, k);
  }

  lemma MultipleDivides(g: nat, k: int)
    requires g > 0
    ensures Divides(g, g * k)
  {
    ModUnique(g * k, g, k, 0);
  }

  lemma AddMultiple(x: int, m: int, g: nat)
    requires g > 0 && Divides(g, m)
    ensures (x + m) % g == x % g
  {
    DivMod(x, g);
    DivMod(m, g);
    assert x + m == g * (x / g + m / g) + x % g;
    ModUnique(x + m, g, x / g + m / g, x % g);
  }

  lemma {:induction false} GcdDivides(a: nat, b: nat)
    requires b > 0
    ensures Divides(Gcd(a, b), a) && Divides(Gcd(a, b), b)
    decreases b
  {
    var g := Gcd(a, b);
    if a % b == 0 {
      MultipleDivides(b, 1);
    } else {
      GcdDivides(b, a % b);
      CombinationDivides(g, b, a % b, a / b, 1);
      DivMod(a, b);
    }
  }

  /** A divisor of two numbers divides their linear combinations. */
  lemma CombinationDivides(d: nat, a: int, b: int, x: int, y: int)
    requires d > 0 && Divides(d, a) && Divides(d, b)
    ensures Divides(d, a * x + b * y)
  {
    DivMod(a, d);
    DivMod(b, d);
    var u, v := a / d, b / d;
    assert a * x + b * y == d * (u * x + v * y) by {
      assert a * x == d * u * x == d * (u * x);
      assert b * y == d * v * y == d * (v * y);
    }
    MultipleDivides(d, u * x + v * y);
  }

  lemma {:induction false} Bezout(a: nat, b: nat) returns (x: int, y: int)
    requires b > 0
    ensures a * x + b * y == Gcd(a, b)
    decreases b
  {
    if a % b == 0 {
      x, y := 0, 1;
    } else {
      var u, v := Bezout(b, a % b);
      x, y := v, u - (a / b) * v;
      DivMod(a, b);
      var q, r := a / b, a % b;
      assert a * v == (b * q + r) * v == b * (q * v) + r * v;
      assert b * (u - q * v) == b * u - b * (q * v);
    }
  }

  /** Every common divisor divides it. */
  lemma GcdIsGreatest(a: nat, b: nat)
    requires b > 0
    ensures Divides(Gcd(a, b), a) && Divides(Gcd(a, b), b)
    ensures forall d: nat :: d > 0 && Divides(d, a) && Divides(d, b) ==> Divides(d, Gcd(a, b))
  {
    GcdDivides(a, b);
    var x, y := Bezout(a, b);
    forall d: nat | d > 0 && Divides(d, a) && Divides(d, b) ensures Divides(d, Gcd(a, b)) {
      CombinationDivides(d, a, b, x, y);
    }
  }

  // ---------------------------------------------------------------- orbits

  /** One step of a cycle: back by `a`, around the circle of `n` places. */
  function Step(p: int, a: nat, n: nat): int {
    if p >= a then p - a else p + (n - a)
  }

  function Orbit(p: int, a: nat, n: nat, j: nat): int {
    if j == 0 then p else Step(Orbit(p, a, n, j - 1), a, n)
  }

  /** How often the first `j` steps went around. */
  function Wraps(p: int, a: nat, n: nat, j: nat): int {
    if j == 0 then 0
    else Wraps(p, a, n, j - 1) + if Orbit(p, a, n, j - 1) >= a then 0 else 1
  }

  /** Where the rotated block takes place `q` from. */
  function Origin(q: int, a: nat, n: nat): int {
    if q + a < n then q + a else q + a - n
  }

  lemma {:induction false} OrbitForm(p: int, a: nat, n: nat, j: nat)
    requires 0 <= p < n && a < n
    ensures 0 <= Orbit(p, a, n, j) < n
    ensures Orbit(p, a, n, j) == p - j * a + Wraps(p, a, n, j) * n
  {
    if j > 0 {
      OrbitForm(p, a, n, j - 1);
      FormStep(Orbit(p, a, n, j - 1), p, a, n, j, Wraps(p, a, n, j - 1));
    }
  }

  lemma FormStep(q: int, p: int, a: int, n: int, j: int, w: int)
    requires q == p - (j - 1) * a + w * n
    ensures q - a == p - j * a + w * n
    ensures q + (n - a) == p - j * a + (w + 1) * n
  {
  }

  lemma {:induction false} OrbitResidue(p: int, a: nat, n: nat, j: nat, g: nat)
    requires 0 <= p < n && a < n && g > 0 && Divides(g, a) && Divides(g, n)
    ensures Orbit(p, a, n, j) % g == p % g
  {
    if j > 0 {
      OrbitResidue(p, a, n, j - 1, g);
      var before := Orbit(p, a, n, j - 1);
      var back: int := a;
      CombinationDivides(g, a, n, -1, 0);
      CombinationDivides(g, a, n, -1, 1);
      AddMultiple(before, -back, g);
      AddMultiple(before, n - back, g);
    }
  }

  /** `g` is the divisor, `l` the length of a cycle, `c` the wraps of a cycle. */
  predicate Shape(a: nat, n: nat, g: nat, l: nat, c: nat) {
    a < n && g > 0 && n == g * l && a == g * c
  }

  lemma ProductsAgree(a: nat, n: nat, g: nat, l: nat, c: nat)
    requires Shape(a, n, g, l, c)
    ensures l > 0 && l * a == n * c
  {
    MulGrows(g, l);
    assert l * (g * c) == (g * l) * c;
  }

  lemma Distribute(n: int, x: int, y: int)
    ensures n * (x + y) == n * x + n * y && n * (x - y) == n * x - n * y
  {
  }

  /** Two places of the circle that differ by a multiple of its length are one. */
  lemma SamePlace(p: int, q: int, n: nat, k: int)
    requires 0 <= p < n && 0 <= q < n && p == q + n * k
    ensures p == q
  {
    SmallMultiple(n, k, p - q);
  }

  lemma OrbitReturns(p: int, a: nat, n: nat, g: nat, l: nat, c: nat)
    requires 0 <= p < n && Shape(a, n, g, l, c)
    ensures Orbit(p, a, n, l) == p
  {
    hide Orbit, Wraps;
    OrbitForm(p, a, n, l);
    ProductsAgree(a, n, g, l, c);
    var w := Wraps(p, a, n, l);
    Distribute(n, w, c);
    SamePlace(Orbit(p, a, n, l), p, n, w - c);
  }

  /** Two visits to one place are whole cycles apart. */
  lemma OrbitPeriod(p: int, a: nat, n: nat, g: nat, l: nat, c: nat, x: int, y: int, i: nat, j: nat) returns (k: int)
    requires 0 <= p < n && a < n && Shape(a, n, g, l, c) && a * x + n * y == g
    requires i <= j && Orbit(p, a, n, i) == Orbit(p, a, n, j)
    ensures j - i == l * k
  {
    hide Shape;
    StepsBetween(p, a, n, i, j);
    var d, w := j - i, Wraps(p, a, n, j) - Wraps(p, a, n, i);
    Cancel(d, w, a, n, g, l, c, x, y);
    k := w * x + d * y;
  }

  lemma StepsBetween(p: int, a: nat, n: nat, i: nat, j: nat)
    requires 0 <= p < n && a < n && Orbit(p, a, n, i) == Orbit(p, a, n, j)
    ensures (j - i) * a == (Wraps(p, a, n, j) - Wraps(p, a, n, i)) * n
  {
    OrbitForm(p, a, n, i);
    OrbitForm(p, a, n, j);
    Distribute(a, j, i);
    Distribute(n, Wraps(p, a, n, j), Wraps(p, a, n, i));
  }

  /** From d·a = w·n and a·x + n·y = g follows d = l·(w·x + d·y). */
  lemma Cancel(d: int, w: int, a: nat, n: nat, g: nat, l: nat, c: nat, x: int, y: int)
    requires Shape(a, n, g, l, c) && a * x + n * y == g && d * a == w * n
    ensures d == l * (w * x + d * y)
  {
    var m := w * x + d * y;
    Scaled(d, a, x, n, y, g);
    Regroup(d, a, x, w, n);
    Distribute(n, w * x, d * y);
    assert g * (l * m) == (g * l) * m;
    Distribute(g, d, l * m);
    SmallMultiple(g, d - l * m, 0);
  }

  lemma Scaled(d: int, a: int, x: int, n: int, y: int, g: int)
    requires a * x + n * y == g
    ensures (d * a) * x + n * (d * y) == g * d
  {
    Distribute(d, a * x, n * y);
    assert d * (a * x) == (d * a) * x;
    assert d * (n * y) == n * (d * y);
  }

  lemma Regroup(d: int, a: int, x: int, w: int, n: int)
    requires d * a == w * n
    ensures (d * a) * x == n * (w * x)
  {
    assert (w * n) * x == n * (w * x);
  }

  lemma NoMultipleBetween(d: int, l: nat, k: int)
    requires 0 < d < l
    ensures d != l * k
  {
    MulGrows(l, k);
  }

  /** Before the cycle closes every step reaches a new place. */
  lemma OrbitFresh(p: int, a: nat, n: nat, g: nat, l: nat, c: nat, x: int, y: int, i: nat, j: nat)
    requires 0 <= p < n && Shape(a, n, g, l, c) && a * x + n * y == g
    requires i < j < i + l
    ensures Orbit(p, a, n, i) != Orbit(p, a, n, j)
  {
    if Orbit(p, a, n, i) == Orbit(p, a, n, j) {
      var k := OrbitPeriod(p, a, n, g, l, c, x, y, i, j);
      NoMultipleBetween(j - i, l, k);
    }
  }

  /** A cycle visits every place that is congruent to its start. */
  lemma OrbitCovers(p: int, a: nat, n: nat, g: nat, l: nat, c: nat, x: int, y: int, q: int) returns (j: nat)
    requires 0 <= p < n && Shape(a, n, g, l, c) && a * x + n * y == g
    requires 0 <= q < n && q % g == p % g
    ensures 0 < j <= l && Orbit(p, a, n, j) == q
  {
    hide Orbit, Wraps;
    ProductsAgree(a, n, g, l, c);
    var k := Quotients(p, q, g);
    var u, j0 := QuotientAndRest(k * x, l);
    CoverSum(a, n, g, l, c, x, y, k, u, j0);
    OrbitForm(p, a, n, j0);
    Distribute(n, Wraps(p, a, n, j0), k * y + c * u);
    SamePlace(Orbit(p, a, n, j0), q, n, Wraps(p, a, n, j0) + (k * y + c * u));
    j := j0;
    if j == 0 {
      OrbitReturns(p, a, n, g, l, c);
      OrbitStart(p, a, n);
      j := l;
    }
  }

  lemma OrbitStart(p: int, a: nat, n: nat)
    ensures Orbit(p, a, n, 0) == p
  {
  }

  lemma Quotients(p: int, q: int, g: nat) returns (k: int)
    requires g > 0 && q % g == p % g
    ensures p - q == g * k
  {
    DivMod(p, g);
    DivMod(q, g);
    k := p / g - q / g;
    Distribute(g, p / g, q / g);
  }

  lemma QuotientAndRest(m: int, l: nat) returns (u: int, j: nat)
    requires l > 0
    ensures m == l * u + j && j < l
  {
    DivMod(m, l);
    u, j := m / l, m % l;
  }

  lemma CoverSum(a: nat, n: nat, g: nat, l: nat, c: nat, x: int, y: int, k: int, u: int, j: int)
    requires Shape(a, n, g, l, c) && a * x + n * y == g && k * x == l * u + j
    ensures j * a == g * k - n * (k * y + c * u)
  {
    hide Shape;
    ProductsAgree(a, n, g, l, c);
    Distribute(a, k * x, l * u);
    Regroup(l, a, u, c, n);
    assert (l * u) * a == (l * a) * u;
    Scaled(k, a, x, n, y, g);
    assert (k * x) * a == (k * a) * x;
    Distribute(n, k * y, c * u);
  }

  /** Place `q` is one of those the first `l` steps from `p` reach. */
  predicate OnCycle(p: int, a: nat, n: nat, l: nat, q: int) {
    exists j :: 0 < j <= l && Orbit(p, a, n, j) == q
  }

  /** Every place lies on the cycle that starts at the end of the first block plus its
      residue, and on no other. */
  lemma OneCycleEach(a: nat, b: nat, i: nat, q: nat)
    requires b > 0 && i < Gcd(a, b) && q < a + b
    ensures OnCycle(a + i, a, a + b, (a + b) / Gcd(a, b), q) <==> q % Gcd(a, b) == i
  {
    var n, g := a + b, Gcd(a, b);
    var l, c, x, y := CycleShape(a, b);
    StartResidue(a, g, i);
    var p := a + i;
    forall j | 0 < j <= l ensures Orbit(p, a, n, j) % g == i {
      OrbitResidue(p, a, n, j, g);
    }
    if q % g == i {
      var j := OrbitCovers(p, a, n, g, l, c, x, y, q);
      assert 0 < j <= l && Orbit(p, a, n, j) == q;
    }
  }

  lemma StartResidue(a: nat, g: nat, i: nat)
    requires g > 0 && Divides(g, a) && i < g
    ensures (a + i) % g == i
  {
    AddMultiple(i, a, g);
    ModUnique(i, g, 0, i);
  }

  lemma CycleShape(a: nat, b: nat) returns (l: nat, c: nat, x: int, y: int)
    requires b > 0
    ensures Shape(a, a + b, Gcd(a, b), l, c) && l == (a + b) / Gcd(a, b)
    ensures Divides(Gcd(a, b), a) && Divides(Gcd(a, b), a + b)
    ensures a * x + (a + b) * y == Gcd(a, b)
  {
    var g := Gcd(a, b);
    GcdDivides(a, b);
    CombinationDivides(g, a, b, 1, 1);
    DivMod(a, g);
    DivMod(a + b, g);
    l, c := (a + b) / g, a / g;
    var u, v := Bezout(a, b);
    x, y := u - v, v;
    assert a * (u - v) + (a + b) * v == a * u + b * v;
  }

  // ---------------------------------------------------------------- the rotation in place

  /** The two blocks exchanged, the rest as it was. */
  function Rotated<T>(s: seq<T>, start: nat, end: nat, optEnd: nat): seq<T>
    requires start <= end <= optEnd <= |s|
  {
    s[..start] + s[end..optEnd] + s[start..end] + s[optEnd..]
  }

  lemma RotatedAt<T>(s: seq<T>, start: nat, end: nat, optEnd: nat, k: nat)
    requires start <= end <= optEnd <= |s| && k < |s|
    ensures |Rotated(s, start, end, optEnd)| == |s|
    ensures Rotated(s, start, end, optEnd)[k] ==
      if start <= k < optEnd then s[start + Origin(k - start, end - start, optEnd - start)] else s[k]
  {
  }

  lemma OriginOfStep(p: int, a: nat, n: nat)
    requires 0 <= p < n && a < n
    ensures Origin(Step(p, a, n), a, n) == p
  {
  }

  /** The places the first `j` steps of a cycle visited. */
  function Visited(p: int, a: nat, n: nat, j: nat): set<int> {
    if j == 0 then {} else Visited(p, a, n, j - 1) + {Orbit(p, a, n, j)}
  }

  lemma {:induction false} VisitedIff(p: int, a: nat, n: nat, j: nat, q: int)
    ensures q in Visited(p, a, n, j) <==> OnCycle(p, a, n, j, q)
  {
    if j > 0 {
      VisitedIff(p, a, n, j - 1, q);
      if q == Orbit(p, a, n, j) {
        assert 0 < j <= j && Orbit(p, a, n, j) == q;
      }
    }
  }

  /** The places of the first `i` cycles. */
  function Below(n: nat, g: nat, i: nat): set<int>
    requires g > 0
  {
    set q | 0 <= q < n && q % g < i
  }

  lemma OutsideIsOffCycle(p: int, a: nat, n: nat, l: nat, q: int)
    requires 0 <= p < n && a < n && !(0 <= q < n)
    ensures !OnCycle(p, a, n, l, q)
  {
    forall k: nat ensures Orbit(p, a, n, k) != q {
      OrbitForm(p, a, n, k);
    }
  }

  /** One whole cycle settles just the places with its residue. */
  lemma CycleSettles(a: nat, b: nat, i: nat)
    requires b > 0 && i < Gcd(a, b)
    ensures var n, g := a + b, Gcd(a, b);
            Below(n, g, i) + Visited(a + i, a, n, n / g) == Below(n, g, i + 1)
  {
    var n, g := a + b, Gcd(a, b);
    var p, l := a + i, n / g;
    var all := Visited(p, a, n, l);
    forall q: int ensures q in Below(n, g, i) + all <==> q in Below(n, g, i + 1) {
      VisitedIff(p, a, n, l, q);
      if 0 <= q < n {
        OneCycleEach(a, b, i, q);
      } else {
        OutsideIsOffCycle(p, a, n, l, q);
      }
    }
  }

  /** The next place of a cycle is neither settled nor, before the end, its start. */
  lemma NextIsFresh(a: nat, b: nat, i: nat, j: nat)
    requires b > 0 && i < Gcd(a, b) && j < (a + b) / Gcd(a, b)
    ensures var n, g := a + b, Gcd(a, b);
            var next := Orbit(a + i, a, n, j + 1);
            && next == Step(Orbit(a + i, a, n, j), a, n)
            && 0 <= Orbit(a + i, a, n, j) < n && 0 <= next < n
            && next !in Below(n, g, i) + Visited(a + i, a, n, j)
            && a + i !in Below(n, g, i) + Visited(a + i, a, n, j)
            && (next == a + i <==> j + 1 == n / g)
  {
    var n, g := a + b, Gcd(a, b);
    var l, c, x, y := CycleShape(a, b);
    var p := a + i;
    var next := Orbit(p, a, n, j + 1);
    OrbitForm(a + i, a, n, j);
    OrbitForm(a + i, a, n, j + 1);
    OrbitResidue(a + i, a, n, j + 1, g);
    StartResidue(a, g, i);
    VisitedIff(a + i, a, n, j, next);
    forall k | 0 < k <= j ensures Orbit(p, a, n, k) != next {
      OrbitFresh(p, a, n, g, l, c, x, y, k, j + 1);
    }
    VisitedIff(a + i, a, n, j, p);
    forall k | 0 < k <= j ensures Orbit(p, a, n, k) != p {
      OrbitFresh(p, a, n, g, l, c, x, y, 0, k);
    }
    if j + 1 == l {
      OrbitReturns(a + i, a, n, g, l, c);
    } else {
      OrbitFresh(a + i, a, n, g, l, c, x, y, 0, j + 1);
    }
  }

  /** `now` holds the settled places rotated and, but for `p`, the others untouched. */
  ghost predicate Midway<T>(now: seq<T>, was: seq<T>, start: nat, a: nat, n: nat, settled: set<int>, p: int) {
    && |now| == |was| && start + n <= |was| && 0 <= p < n && a < n
    && (forall k :: 0 <= k < |was| && !(start <= k < start + n) ==> now[k] == was[k])
    && (forall q :: 0 <= q < n && q in settled ==> now[start + q] == was[start + Origin(q, a, n)])
    && (forall q :: 0 <= q < n && q !in settled && q != p ==> now[start + q] == was[start + q])
  }

  lemma SwapStep<T>(now: seq<T>, then_: seq<T>, was: seq<T>, start: nat, a: nat, n: nat, settled: set<int>, p: int,
        cur: int)
    requires Midway(now, was, start, a, n, settled, p) && p !in settled && 0 <= cur < n
    requires now[start + p] == was[start + cur]
    requires var next := Step(cur, a, n);
             && 0 <= next < n && next !in settled
             && then_ == now[start + next := now[start + p]][start + p := now[start + next]]
    ensures var next := Step(cur, a, n);
            && Midway(then_, was, start, a, n, settled + {next}, p)
            && (next != p ==> then_[start + p] == was[start + next])
  {
    OriginOfStep(cur, a, n);
  }

  lemma AllSettled<T>(now: seq<T>, was: seq<T>, start: nat, end: nat, optEnd: nat, g: nat, p: int)
    requires start <= end < optEnd <= |was| && g > 0
    requires Midway(now, was, start, end - start, optEnd - start, Below(optEnd - start, g, g), p)
    ensures now == Rotated(was, start, end, optEnd)
  {
    forall k | 0 <= k < |was| ensures now[k] == Rotated(was, start, end, optEnd)[k] {
      RotatedAt(was, start, end, optEnd, k);
      if start <= k < optEnd {
        DivMod(k - start, g);
        assert k - start in Below(optEnd - start, g, g);
      }
    }
    assert |Rotated(was, start, end, optEnd)| == |was|;
  }

  /** Between two cycles no place is half way. */
  lemma NextCycle<T>(now: seq<T>, was: seq<T>, start: nat, a: nat, n: nat, settled: set<int>, p: int, p': int)
    requires Midway(now, was, start, a, n, settled, p) && p in settled && 0 <= p' < n
    ensures Midway(now, was, start, a, n, settled, p')
    ensures p' !in settled ==> now[start + p'] == was[start + p']
  {
  }

  method PermuteArgs<T>(start: nat, end: nat, optEnd: nat, nargv: array<T>)
    requires start <= end < optEnd <= nargv.Length
    modifies nargv
    ensures nargv[..] == Rotated(old(nargv[..]), start, end, optEnd)
  {
    hide Midway, Below, Visited, Orbit, Gcd, Rotated;
    var nnonopts := end - start;
    var nopts := optEnd - end;
    var ncycle := ComputeGcd(nnonopts, nopts);
    var cyclelen := (optEnd - start) / ncycle;
    ghost var was, n, p := nargv[..], optEnd - start, nnonopts;
    StartMidway(was, start, nnonopts, n, ncycle, p);
    for i := 0 to ncycle
      invariant 0 <= p < n
      invariant Midway(nargv[..], was, start, nnonopts, n, Below(n, ncycle, i), p)
      invariant i > 0 ==> p in Below(n, ncycle, i)
      invariant i == 0 ==> nargv[..] == was
    {
      var cstart := end + i;
      var pos := cstart;
      StartCycle(nargv[..], was, start, nnonopts, nopts, i, p);
      p := nnonopts + i;
      OrbitStart(p, nnonopts, n);
      for j := 0 to cyclelen
        invariant pos == start + Orbit(p, nnonopts, n, j)
        invariant Midway(nargv[..], was, start, nnonopts, n, Below(n, ncycle, i) + Visited(p, nnonopts, n, j), p)
        invariant 0 <= Orbit(p, nnonopts, n, j) < n
        invariant j < cyclelen ==> nargv[start + p] == was[start + Orbit(p, nnonopts, n, j)]
        invariant j == cyclelen ==> p in Visited(p, nnonopts, n, j)
      {
        NextIsFresh(nnonopts, nopts, i, j);
        ghost var now, cur := nargv[..], Orbit(p, nnonopts, n, j);
        if pos >= end {
          pos := pos - nnonopts;
        } else {
          pos := pos + nopts;
        }
        var swap := nargv[pos];
        nargv[pos] := nargv[cstart];
        nargv[cstart] := swap;
        VisitedStep(p, nnonopts, n, j);
        SwapStep(now, nargv[..], was, start, nnonopts, n, Below(n, ncycle, i) + Visited(p, nnonopts, n, j), p, cur);
        assert Below(n, ncycle, i) + Visited(p, nnonopts, n, j + 1)
            == Below(n, ncycle, i) + Visited(p, nnonopts, n, j) + {Orbit(p, nnonopts, n, j + 1)};
      }
      CycleSettles(nnonopts, nopts, i);
    }
    AllSettled(nargv[..], was, start, end, optEnd, ncycle, p);
  }

  lemma StartMidway<T>(was: seq<T>, start: nat, a: nat, n: nat, g: nat, p: int)
    requires start + n <= |was| && 0 <= p < n && a < n && g > 0
    ensures Midway(was, was, start, a, n, Below(n, g, 0), p)
  {
  }

  /** At its start a cycle has visited nothing and its first place is untouched. */
  lemma StartCycle<T>(now: seq<T>, was: seq<T>, start: nat, a: nat, b: nat, i: nat, p: int)
    requires b > 0 && i < Gcd(a, b)
    requires Midway(now, was, start, a, a + b, Below(a + b, Gcd(a, b), i), p)
    requires (i > 0 && p in Below(a + b, Gcd(a, b), i)) || now == was
    ensures Midway(now, was, start, a, a + b, Below(a + b, Gcd(a, b), i) + Visited(a + i, a, a + b, 0), a + i)
    ensures now[start + (a + i)] == was[start + (a + i)]
    ensures (a + b) / Gcd(a, b) > 0
  {
    var settled := Below(a + b, Gcd(a, b), i);
    var l, c, x, y := CycleShape(a, b);
    ProductsAgree(a, a + b, Gcd(a, b), l, c);
    StartResidue(a, Gcd(a, b), i);
    assert settled + Visited(a + i, a, a + b, 0) == settled;
    if i > 0 && p in settled {
      NextCycle(now, was, start, a, a + b, settled, p, a + i);
    }
  }

  lemma VisitedStep(p: int, a: nat, n: nat, j: nat)
    ensures Visited(p, a, n, j + 1) == Visited(p, a, n, j) + {Orbit(p, a, n, j + 1)}
    ensures Orbit(p, a, n, 0) == p && Orbit(p, a, n, j + 1) == Step(Orbit(p, a, n, j), a, n)
  {
  }
}
