/** The heights that skip pointers lead to, and how many steps a walk along them takes. */
module SkipList {
  import opened Numerals

  /** `n & (n - 1)`: the lowest one bit of `n` turned into a zero. */
  function InvertLowestOne(n: nat): (r: nat)
    ensures n > 0 ==> r < n
    ensures n == 0 ==> r == 0
  {
    if n == 0 then 0
    else if n % 2 == 1 then n - 1
    else 2 * InvertLowestOne(n / 2)
  }

  /** Some bit below `i` is one. */
  ghost predicate OneBelow(n: nat, i: nat) {
    exists j | 0 <= j < i :: Bit(n, j)
  }

  /** Exactly the lowest one bit changes. */
  lemma {:induction false} InvertLowestOneBits(n: nat, i: nat)
    requires n > 0
    ensures Bit(InvertLowestOne(n), i) <==> Bit(n, i) && OneBelow(n, i)
  {
    if n % 2 == 1 {
      assert Bit(n, 0);
      assert (n - 1) / 2 == n / 2;
      assert i > 0 ==> OneBelow(n, i);
    } else if i > 0 {
      assert 2 * InvertLowestOne(n / 2) / 2 == InvertLowestOne(n / 2);
      InvertLowestOneBits(n / 2, i - 1);
      assert OneBelow(n / 2, i - 1) ==> OneBelow(n, i) by {
        if OneBelow(n / 2, i - 1) {
          var j :| 0 <= j < i - 1 && Bit(n / 2, j);
          assert Bit(n, j + 1);
        }
      }
      assert OneBelow(n, i) ==> OneBelow(n / 2, i - 1) by {
        if OneBelow(n, i) {
          var j :| 0 <= j < i && Bit(n, j);
          assert Bit(n / 2, j - 1);
        }
      }
    }
  }

  function SkipHeight(height: nat): (r: nat)
    ensures height > 0 ==> r < height
    ensures height == 0 ==> r == 0
  {
    if height < 2 then 0
    else if height % 2 == 1 then InvertLowestOne(InvertLowestOne(height - 1)) + 1
    else InvertLowestOne(height)
  }

  /** The rule by which `GetAncestor` prefers the skip pointer over the parent. */
  predicate UseSkip(height: nat, target: nat)
    requires target < height
  {
    var skip := SkipHeight(height);
    var skipPrev := SkipHeight(height - 1);
    skip == target || (skip > target && !(skipPrev < skip - 2 && skipPrev >= target))
  }

  /** A skip that is used does not overshoot. */
  lemma SkipStops(height: nat, target: nat)
    requires target < height && UseSkip(height, target)
    ensures target <= SkipHeight(height)
  {
  }

  // ----- The walk -----

  /** The next height on the way from `h` down to `t`. */
  function NextHeight(h: nat, t: nat): (r: nat)
    requires t < h
    ensures t <= r < h
  {
    if UseSkip(h, t) then SkipHeight(h) else h - 1
  }

  /** The number of steps from height `h` down to height `t`. */
  function Hops(h: nat, t: nat): nat
    requires t <= h
  {
    if h == t then 0 else 1 + Hops(NextHeight(h, t), t)
  }

  lemma HopsStep(h: nat, t: nat)
    requires t < h
    ensures Hops(h, t) == 1 + Hops(NextHeight(h, t), t)
    ensures NextHeight(h, t) == if UseSkip(h, t) then SkipHeight(h) else h - 1
  {
  }

  lemma HopsNone(t: nat)
    ensures Hops(t, t) == 0
  {
  }

  // ----- Bits -----

  /** A multiple of two to the power `j`. */
  predicate Aligned(a: nat, j: nat) {
    j == 0 || (a % 2 == 0 && Aligned(a / 2, j - 1))
  }

  /** The number of one bits. */
  function Ones(n: nat): nat {
    if n == 0 then 0 else Ones(n / 2) + n % 2
  }

  lemma {:induction false} OnesInverted(n: nat)
    requires n > 0
    ensures Ones(InvertLowestOne(n)) == Ones(n) - 1
  {
    if n % 2 == 1 {
      assert (n - 1) / 2 == n / 2;
    } else {
      OnesInverted(n / 2);
      OnesDouble(InvertLowestOne(n / 2));
    }
  }

  lemma OnesDouble(n: nat)
    ensures Ones(2 * n) == Ones(n) && Ones(2 * n + 1) == Ones(n) + 1
  {
  }

  lemma {:induction false} OnesBound(n: nat, j: nat)
    requires n < Pow(2, j)
    ensures Ones(n) <= j
  {
    if j > 0 {
      OnesBound(n / 2, j - 1);
    }
  }

  lemma {:induction false} OnesFull(j: nat)
    ensures Ones(Pow(2, j) - 1) == j
  {
    if j > 0 {
      OnesFull(j - 1);
      OnesDouble(Pow(2, j - 1) - 1);
    }
  }

  /** Below an aligned number, the lowest one bit of the rest is the lowest one bit. */
  lemma {:induction false} InvertAbove(a: nat, j: nat, low: nat)
    requires Aligned(a, j) && 0 < low < Pow(2, j)
    ensures InvertLowestOne(a + low) == a + InvertLowestOne(low)
  {
    if low % 2 == 0 {
      InvertAbove(a / 2, j - 1, low / 2);
      assert (a + low) / 2 == a / 2 + low / 2;
    }
  }

  lemma {:induction false} InvertPower(j: nat)
    ensures InvertLowestOne(Pow(2, j)) == 0
  {
    if j > 0 {
      InvertPower(j - 1);
    }
  }

  lemma {:induction false} AlignedHalf(a: nat, j: nat)
    requires Aligned(a, j + 1)
    ensures Aligned(a, j) && Aligned(a + Pow(2, j), j)
    ensures InvertLowestOne(a + Pow(2, j)) == a
  {
    InvertAbove(a, j + 1, Pow(2, j));
    InvertPower(j);
    AlignedParts(a, j);
  }

  lemma {:induction false} AlignedParts(a: nat, j: nat)
    requires Aligned(a, j + 1)
    ensures Aligned(a, j) && Aligned(a + Pow(2, j), j)
  {
    if j > 0 {
      AlignedParts(a / 2, j - 1);
      assert (a + Pow(2, j)) / 2 == a / 2 + Pow(2, j - 1);
    }
  }

  lemma {:induction false} AlignedGap(a: nat, j: nat)
    requires Aligned(a, j) && a > 0
    ensures InvertLowestOne(a) + Pow(2, j) <= a
  {
    if j > 0 {
      AlignedGap(a / 2, j - 1);
    }
  }

  // ----- One region: the target lacks the bit that the height has -----

  /** How a number can end. */
  datatype Ending =
    | Zero                   // 0
    | One(z: nat)            // 2z + 1
    | Two(y: nat)            // 4y + 2
    | Four(y: nat)           // 8y + 4
    | Eight(y: nat)          // 8y

  function EndingOf(low: nat): (e: Ending)
    ensures match e
            case Zero => low == 0
            case One(z) => low == 2 * z + 1
            case Two(y) => low == 4 * y + 2
            case Four(y) => low == 8 * y + 4
            case Eight(y) => low == 8 * y && y > 0
  {
    if low == 0 then Zero
    else if low % 2 == 1 then One(low / 2)
    else EvenEnding(low / 2)
  }

  function EvenEnding(half: nat): (e: Ending)
    requires half > 0
    ensures match e
            case Two(y) => half == 2 * y + 1
            case Four(y) => half == 4 * y + 2
            case Eight(y) => half == 4 * y && y > 0
            case _ => false
  {
    if half % 2 == 1 then Two(half / 2)
    else
      var quarter := half / 2;
      if quarter % 2 == 1 then Four(quarter / 2) else Eight(quarter / 2)
  }

  lemma EndsInOne(z: nat)
    ensures EndingOf(2 * z + 1) == One(z)
  {
  }

  lemma EndsInTwo(y: nat)
    ensures EndingOf(4 * y + 2) == Two(y)
  {
    assert (4 * y + 2) / 2 == 2 * y + 1;
  }

  lemma EndsInFour(y: nat)
    ensures EndingOf(8 * y + 4) == Four(y)
  {
    assert (8 * y + 4) / 2 == 4 * y + 2 && (4 * y + 2) / 2 == 2 * y + 1;
  }

  lemma EndsInEight(y: nat)
    requires y > 0
    ensures EndingOf(8 * y) == Eight(y)
  {
    assert 8 * y / 2 == 4 * y && 4 * y / 2 == 2 * y;
  }

  /** The most steps from `m + low` until the bit of `m` is gone, where `m` is aligned. */
  function Cost(low: nat): nat {
    match EndingOf(low)
    case Zero => 1
    case One(z) => (Ones(2 * z) + 1) / 2 + 2
    case Two(y) => if Ones(y) == 0 then 2 else (Ones(y) + 1) / 2 + 3
    case Four(y) => if Ones(y) == 0 then 2 else (Ones(y) + 2) / 2 + 3
    case Eight(y) => Ones(y) + 1
  }

  lemma OneMoreHop(n: nat, t: nat)
    requires n <= t <= n + 1
    ensures Hops(n + 1, t) <= 1
  {
    if t == n {
      HopsStep(n + 1, n);
      HopsNone(n);
    } else {
      HopsNone(n + 1);
    }
  }

  // Skip heights, when the bits of `h` above some point make up an aligned `m`.

  lemma SkipOf(z: nat)
    requires z >= 1
    ensures SkipHeight(2 * z) == InvertLowestOne(2 * z)
    ensures SkipHeight(2 * z + 1) == InvertLowestOne(InvertLowestOne(2 * z)) + 1
  {
    hide InvertLowestOne;
  }

  lemma EvenBase(m: nat, j: nat) returns (w: nat)
    requires Aligned(m, j) && m > 0 && j > 0
    ensures m == 2 * w && w >= 1
  {
    w := m / 2;
  }

  lemma SkipEven(m: nat, j: nat, z: nat)
    requires Aligned(m, j) && m > 0 && j > 0 && 0 < 2 * z < Pow(2, j)
    ensures SkipHeight(m + 2 * z) == m + InvertLowestOne(2 * z)
  {
    hide *;
    var w := EvenBase(m, j);
    InvertAbove(m, j, 2 * z);
    SkipOf(w + z);
  }

  lemma SkipOdd(m: nat, j: nat, z: nat)
    requires Aligned(m, j) && m > 0 && j > 0 && 2 * z < Pow(2, j)
    ensures Ones(2 * z) >= 2 ==> SkipHeight(m + 2 * z + 1) == m + InvertLowestOne(InvertLowestOne(2 * z)) + 1
    ensures Ones(2 * z) == 1 ==> SkipHeight(m + 2 * z + 1) == InvertLowestOne(m) + 1
    ensures z == 0 ==> SkipHeight(m + 2 * z + 1) == InvertLowestOne(InvertLowestOne(m)) + 1
  {
    hide *;
    var w := EvenBase(m, j);
    SkipOf(w + z);
    OnesOfZero();
    if z > 0 {
      InvertTwice(m, j, 2 * z);
    }
  }

  lemma InvertTwice(m: nat, j: nat, x: nat)
    requires Aligned(m, j) && 0 < x < Pow(2, j)
    ensures Ones(x) >= 2 ==> InvertLowestOne(InvertLowestOne(m + x)) == m + InvertLowestOne(InvertLowestOne(x))
    ensures Ones(x) == 1 ==> InvertLowestOne(InvertLowestOne(m + x)) == InvertLowestOne(m)
  {
    hide *;
    InvertAbove(m, j, x);
    OnesInverted(x);
    OnesOfZero();
    InvertLess(x);
    if Ones(x) >= 2 {
      InvertAbove(m, j, InvertLowestOne(x));
    } else if Ones(x) == 1 {
      OnesNone(InvertLowestOne(x));
    }
  }

  lemma InvertLess(y: nat)
    requires y > 0
    ensures InvertLowestOne(y) <= y - 1
  {
  }

  lemma OnesOfZero()
    ensures Ones(0) == 0
  {
  }

  lemma UseSkipIs(h: nat, t: nat, s: nat, p: nat)
    requires t < h && s == SkipHeight(h) && p == SkipHeight(h - 1)
    ensures UseSkip(h, t) <==> s == t || (s > t && !(p < s - 2 && p >= t))
    ensures NextHeight(h, t) == if UseSkip(h, t) then s else h - 1
    ensures Hops(h, t) == 1 + Hops(NextHeight(h, t), t)
  {
    hide SkipHeight;
  }

  lemma {:induction false} OnesNone(n: nat)
    requires Ones(n) == 0
    ensures n == 0
  {
    if n > 0 {
      OnesNone(n / 2);
    }
  }

  /** The height is `n + Pow(2, j) + low`, the target is below `n + Pow(2, j)` and not below `n`, and `v`
      bounds the steps that are left once the walk is below `n + Pow(2, j)`. */
  ghost predicate Region(n: nat, j: nat, low: nat, t: nat, v: nat) {
    && Aligned(n, j + 1) && low < Pow(2, j) && n <= t < n + Pow(2, j)
    && Hops(n + Pow(2, j) - 1, t) <= v
  }

  // Numbers by their last bits.

  lemma LastBits(y: nat)
    ensures InvertLowestOne(4 * y + 2) == 4 * y && InvertLowestOne(4 * y) == 4 * InvertLowestOne(y)
    ensures InvertLowestOne(8 * y + 4) == 8 * y && InvertLowestOne(8 * y + 2) == 8 * y
    ensures InvertLowestOne(8 * y + 6) == 8 * y + 4 && InvertLowestOne(8 * y) == 8 * InvertLowestOne(y)
    ensures Ones(4 * y) == Ones(y) && Ones(4 * y + 2) == Ones(y) + 1
    ensures Ones(8 * y) == Ones(y) && Ones(8 * y + 4) == Ones(y) + 1 && Ones(8 * y + 2) == Ones(y) + 1
  {
    hide InvertLowestOne, Ones;
    InvertDouble(y);
    InvertDouble(2 * y);
    InvertDouble(4 * y);
    InvertDouble(2 * y + 1);
    InvertDouble(4 * y + 1);
    InvertDouble(4 * y + 2);
    InvertDouble(4 * y + 3);
    OnesDouble(y);
    OnesDouble(2 * y);
    OnesDouble(2 * y + 1);
    OnesDouble(4 * y);
    OnesDouble(4 * y + 1);
    OnesDouble(4 * y + 2);
  }

  lemma InvertDouble(y: nat)
    ensures InvertLowestOne(2 * y) == 2 * InvertLowestOne(y) && InvertLowestOne(2 * y + 1) == 2 * y
  {
  }

  lemma OnlyOne(n: nat)
    requires Ones(n) == 1
    ensures n > 0 && InvertLowestOne(n) == 0
  {
    OnesInverted(n);
    OnesNone(InvertLowestOne(n));
  }

  // The cost, by the last bits.

  lemma CostOdd(z: nat)
    ensures Cost(2 * z + 1) == (Ones(2 * z) + 1) / 2 + 2
  {
    hide Ones, EndingOf;
    EndsInOne(z);
  }

  lemma CostEight(y: nat)
    requires y > 0
    ensures Cost(8 * y) == Ones(y) + 1
  {
    hide Ones, EndingOf;
    EndsInEight(y);
  }

  lemma CostTwo(y: nat)
    ensures Cost(4 * y + 2) == if Ones(y) == 0 then 2 else (Ones(y) + 1) / 2 + 3
  {
    hide Ones, EndingOf;
    EndsInTwo(y);
  }

  lemma CostFour(y: nat)
    ensures Cost(8 * y + 4) == if Ones(y) == 0 then 2 else (Ones(y) + 2) / 2 + 3
  {
    hide Ones, EndingOf;
    EndsInFour(y);
  }

  lemma CostSingle(z: nat)
    requires Ones(2 * z) == 1
    ensures Cost(2 * z) == 2
  {
    hide Ones, EndingOf, InvertLowestOne;
    match EndingOf(2 * z)
    case Two(y) => LastBits(y);
    case Four(y) => LastBits(y);
    case Eight(y) => LastBits(y);
    case Zero => OnesOfZero();
    case One(_) =>
  }

  lemma SomeBit(n: nat)
    requires n > 0
    ensures Ones(n) > 0
  {
    if Ones(n) == 0 {
      OnesNone(n);
    }
  }

  // The steps.

  /** The step from `m + low` leads to `m + next`, which costs at least one less. */
  ghost predicate Descends(m: nat, low: nat, t: nat, next: nat)
    requires t <= m
  {
    next < low && Hops(m + low, t) == 1 + Hops(m + next, t) && 1 + Cost(next) <= Cost(low)
  }

  lemma FromBottom(n: nat, j: nat, t: nat, v: nat)
    requires Region(n, j, 0, t, v)
    ensures Hops(n + Pow(2, j), t) <= 1 + v
  {
    hide Hops, InvertLowestOne, Aligned, SkipHeight, UseSkip;
    var m := n + Pow(2, j);
    HopsStep(m, t);
    HopsNone(t);
    if j > 0 {
      AlignedHalf(n, j);
      var w := EvenBase(m, j);
      SkipOf(w);
      SkipAtLeast(m, t);
    }
  }

  /** A skip that is used leads to the target or above it. */
  lemma SkipAtLeast(h: nat, t: nat)
    requires t < h
    ensures UseSkip(h, t) ==> SkipHeight(h) >= t
  {
    hide SkipHeight;
  }

  lemma OddMany(n: nat, j: nat, z: nat, t: nat, v: nat) returns (next: nat)
    requires Region(n, j, 2 * z + 1, t, v) && Ones(2 * z) >= 2
    ensures Descends(n + Pow(2, j), 2 * z + 1, t, 2 * next + 1)
    ensures Cost(2 * z + 1) == 1 + Cost(2 * next + 1) && next < z
  {
    hide Hops, Ones, SkipHeight, InvertLowestOne, Aligned, Pow, UseSkip, Cost;
    var m := n + Pow(2, j);
    PowZero(2);
    AlignedHalf(n, j);
    SkipOdd(m, j, z);
    SkipEven(m, j, z);
    next := TwoBitsLess(z);
    InvertLess(2 * z);
    UseSkipIs(m + 2 * z + 1, t, SkipHeight(m + 2 * z + 1), SkipHeight(m + 2 * z));
  }

  lemma TwoBitsLess(z: nat) returns (y: nat)
    requires Ones(2 * z) >= 2
    ensures z > 0 && 2 * y == InvertLowestOne(InvertLowestOne(2 * z)) < InvertLowestOne(2 * z) < 2 * z
    ensures Cost(2 * z + 1) == 1 + Cost(2 * y + 1)
  {
    hide Ones, InvertLowestOne, Cost;
    OnesOfZero();
    InvertDouble(z);
    InvertDouble(InvertLowestOne(z));
    y := InvertLowestOne(InvertLowestOne(z));
    OnesDouble(z);
    OnesDouble(y);
    OnesInverted(z);
    OnesInverted(InvertLowestOne(z));
    InvertLess(z);
    InvertLess(InvertLowestOne(z));
    CostOdd(z);
    CostOdd(y);
  }

  /** One bit left: the skip leaves the region, or the step leads to an even number. */
  lemma OddLast(n: nat, j: nat, z: nat, t: nat, v: nat)
    requires Region(n, j, 2 * z + 1, t, v) && Ones(2 * z) <= 1
    ensures Hops(n + Pow(2, j) + 2 * z + 1, t) <= Cost(2 * z + 1) + v || Descends(n + Pow(2, j), 2 * z + 1, t, 2 * z)
  {
    hide Hops, SkipHeight, InvertLowestOne, Aligned, Pow, UseSkip, Cost, Ones;
    var m := n + Pow(2, j);
    PowZero(2);
    OddLastCost(z);
    HopsStep(m + 2 * z + 1, t);
    if UseSkip(m + 2 * z + 1, t) {
      SkipAtLeast(m + 2 * z + 1, t);
      LeavesTo(n, j, z, t);
      OneMoreHop(n, t);
    }
  }

  lemma OddLastCost(z: nat)
    requires Ones(2 * z) <= 1
    ensures Cost(2 * z + 1) == 1 + Cost(2 * z) && Cost(2 * z) >= 1
  {
    hide Ones, InvertLowestOne, Cost;
    CostOdd(z);
    OnesOfZero();
    if Ones(2 * z) == 0 {
      OnesNone(2 * z);
      CostNothing();
    } else {
      CostSingle(z);
    }
  }

  /** A skip from an odd height with at most one more bit that does not overshoot leads to `n + 1`. */
  lemma LeavesTo(n: nat, j: nat, z: nat, t: nat)
    requires Aligned(n, j + 1) && n <= t && 0 < j && 2 * z < Pow(2, j) && Ones(2 * z) <= 1
    requires SkipHeight(n + Pow(2, j) + 2 * z + 1) >= t
    ensures SkipHeight(n + Pow(2, j) + 2 * z + 1) == n + 1
  {
    hide SkipHeight, InvertLowestOne, Aligned, Pow, Ones;
    AlignedHalf(n, j);
    SkipOdd(n + Pow(2, j), j, z);
    if Ones(2 * z) == 0 {
      OnesNone(2 * z);
      InvertOfZero();
      PowNext(2, j);
      if n > 0 {
        AlignedGap(n, j + 1);
      }
    }
  }

  lemma InvertOfZero()
    ensures InvertLowestOne(0) == 0
  {
  }

  /** Three zeros at the end: the skip is better than the one before. */
  lemma EvenLong(n: nat, j: nat, y: nat, t: nat, v: nat)
    requires Region(n, j, 8 * y, t, v) && y > 0
    ensures Descends(n + Pow(2, j), 8 * y, t, 8 * InvertLowestOne(y))
    ensures Cost(8 * y) == 1 + Cost(8 * InvertLowestOne(y)) && InvertLowestOne(y) < y
  {
    hide Hops, SkipHeight, InvertLowestOne, Aligned, Pow, Ones, UseSkip, Cost;
    var m := n + Pow(2, j);
    PowZero(2);
    AlignedHalf(n, j);
    SkipEven(m, j, 4 * y);
    LastBits(y);
    InvertLess(y);
    BeforeEight(m, j, y);
    EvenLongCost(y);
    UseSkipIs(m + 8 * y, t, SkipHeight(m + 8 * y), SkipHeight(m + 8 * y - 1));
  }

  /** The skip height before a number with three zeros at the end. */
  lemma BeforeEight(m: nat, j: nat, y: nat)
    requires Aligned(m, j) && m > 0 && j > 0 && 0 < 8 * y < Pow(2, j)
    ensures SkipHeight(m + 8 * y - 1) == m + 8 * y - 7
  {
    hide SkipHeight, InvertLowestOne, Aligned, Pow, Ones;
    LastBits(y - 1);
    SixAtTheEnd(y - 1);
    SkipOdd(m, j, 4 * y - 1);
  }

  lemma EvenLongCost(y: nat)
    requires y > 0
    ensures Cost(8 * y) == 1 + Cost(8 * InvertLowestOne(y))
  {
    hide InvertLowestOne, Ones;
    CostEight(y);
    OnesInverted(y);
    if InvertLowestOne(y) > 0 {
      CostEight(InvertLowestOne(y));
    } else {
      OnesOfZero();
    }
  }

  lemma SixAtTheEnd(y: nat)
    ensures Ones(8 * y + 6) == Ones(y) + 2
  {
    hide Ones;
    OnesDouble(4 * y + 3);
    OnesDouble(2 * y + 1);
    OnesDouble(y);
  }

  lemma EvenTwo(n: nat, j: nat, y: nat, t: nat, v: nat)
    requires Region(n, j, 4 * y + 2, t, v) && Ones(y) >= 1
    ensures Descends(n + Pow(2, j), 4 * y + 2, t, 4 * y + 1) || Descends(n + Pow(2, j), 4 * y + 2, t, 4 * y)
  {
    hide Hops, SkipHeight, InvertLowestOne, Aligned, Pow, Ones, UseSkip, Cost;
    var m := n + Pow(2, j);
    PowZero(2);
    LastBits(y);
    AlignedHalf(n, j);
    SkipEven(m, j, 2 * y + 1);
    UseSkipIs(m + 4 * y + 2, t, m + 4 * y, SkipHeight(m + 4 * y + 1));
    CostTwo(y);
    CostOdd(2 * y);
    if Ones(y) >= 2 {
      BeforeTwo(m, j, y);
    } else {
      CostSingle(2 * y);
    }
  }

  /** With `01` in place of `10` at the end, the skip goes further. */
  lemma BeforeTwo(m: nat, j: nat, y: nat)
    requires Aligned(m, j) && m > 0 && j > 0 && 4 * y + 2 < Pow(2, j) && Ones(y) >= 2
    ensures m <= SkipHeight(m + 4 * y + 1) < m + 4 * y - 2
  {
    hide SkipHeight, InvertLowestOne, Ones, Aligned, Pow;
    OnesOfZero();
    LastBits(y);
    LastBits(InvertLowestOne(y));
    OnesInverted(y);
    InvertLess(y);
    InvertLess(InvertLowestOne(y));
    SkipOdd(m, j, 2 * y);
  }

  lemma EvenFour(n: nat, j: nat, y: nat, t: nat, v: nat)
    requires Region(n, j, 8 * y + 4, t, v) && Ones(y) >= 1
    ensures Descends(n + Pow(2, j), 8 * y + 4, t, 8 * y + 3)
  {
    hide Hops, SkipHeight, InvertLowestOne, Aligned, Pow, Ones, UseSkip, Cost;
    var m := n + Pow(2, j);
    PowZero(2);
    OnesOfZero();
    LastBits(y);
    AlignedHalf(n, j);
    SkipEven(m, j, 4 * y + 2);
    SkipOdd(m, j, 4 * y + 1);
    InvertLess(y);
    CostFour(y);
    CostOdd(4 * y + 1);
    UseSkipIs(m + 8 * y + 4, t, m + 8 * y, SkipHeight(m + 8 * y + 3));
  }

  /** A single bit: the skip leads to `m`, unless the one before leads to the target or just above it. */
  lemma EvenSingle(n: nat, j: nat, z: nat, t: nat, v: nat)
    requires Region(n, j, 2 * z, t, v) && 1 <= z <= 2
    ensures Hops(n + Pow(2, j) + 2 * z, t) <= 2 + v || Descends(n + Pow(2, j), 2 * z, t, 0)
    ensures Cost(2 * z) == 2 && Cost(0) == 1
  {
    hide Hops, SkipHeight, InvertLowestOne, Aligned, Pow, UseSkip, Ones, Cost;
    var m := n + Pow(2, j);
    PowZero(2);
    SmallBits();
    CostNothing();
    CostSingle(z);
    AlignedHalf(n, j);
    SkipEven(m, j, z);
    UseSkipIs(m + 2 * z, t, m, SkipHeight(m + 2 * z - 1));
    if !UseSkip(m + 2 * z, t) {
      LeavesTo(n, j, z - 1, t);
      SkipBefore(m, j, z);
      UseSkipIs(m + 2 * z - 1, t, n + 1, SkipHeight(m + 2 * z - 2));
      OneMoreHop(n, t);
      HopsStep(m - 1, t);
    }
  }

  lemma SkipBefore(m: nat, j: nat, z: nat)
    requires Aligned(m, j) && m > 0 && j > 0 && 2 * z < Pow(2, j) && 1 <= z <= 2
    ensures SkipHeight(m + 2 * z - 2) == if z == 2 then m else InvertLowestOne(m)
  {
    hide SkipHeight, Aligned, Pow, Ones, InvertLowestOne;
    SmallBits();
    var w := EvenBase(m, j);
    SkipOf(w);
    if z == 2 {
      SkipEven(m, j, 1);
    }
  }

  lemma SmallBits()
    ensures InvertLowestOne(2) == 0 && InvertLowestOne(4) == 0 && Ones(0) == 0 && Ones(2) == 1 && Ones(4) == 1
  {
  }

  /** The whole region. */
  lemma {:induction false} RegionCost(n: nat, j: nat, low: nat, t: nat, v: nat)
    requires Region(n, j, low, t, v)
    ensures Hops(n + Pow(2, j) + low, t) <= Cost(low) + v
    decreases low
  {
    var next := RegionStep(n, j, low, t, v);
    hide Hops, Aligned, Pow, Ones, InvertLowestOne, Cost;
    if next < low {
      RegionCost(n, j, next, t, v);
    }
  }

  lemma RegionStep(n: nat, j: nat, low: nat, t: nat, v: nat) returns (next: nat)
    requires Region(n, j, low, t, v)
    ensures next <= low
    ensures if next < low then Descends(n + Pow(2, j), low, t, next) else Hops(n + Pow(2, j) + low, t) <= Cost(low) + v
  {
    hide Hops, Aligned, Pow, Ones, InvertLowestOne, Cost, EndingOf;
    next := low;
    match EndingOf(low)
    case Zero =>
      FromBottom(n, j, t, v);
      CostNothing();
    case One(z) =>
      if Ones(2 * z) >= 2 {
        var y := OddMany(n, j, z, t, v);
        next := 2 * y + 1;
      } else {
        OddLast(n, j, z, t, v);
        next := if Descends(n + Pow(2, j), low, t, 2 * z) then 2 * z else low;
      }
    case Eight(y) =>
      EvenLong(n, j, y, t, v);
      next := 8 * InvertLowestOne(y);
    case Two(y) =>
      if Ones(y) >= 1 {
        EvenTwo(n, j, y, t, v);
        next := if Descends(n + Pow(2, j), low, t, 4 * y + 1) then 4 * y + 1 else 4 * y;
      } else {
        OnesNone(y);
        EvenSingle(n, j, 1, t, v);
        next := if Descends(n + Pow(2, j), low, t, 0) then 0 else low;
      }
    case Four(y) =>
      if Ones(y) >= 1 {
        EvenFour(n, j, y, t, v);
        next := 8 * y + 3;
      } else {
        OnesNone(y);
        EvenSingle(n, j, 2, t, v);
        next := if Descends(n + Pow(2, j), low, t, 0) then 0 else low;
      }
  }

  lemma CostNothing()
    ensures Cost(0) == 1
  {
  }

  // ----- All heights -----

  /** The most steps in a region of `j` bits below the one that differs. */
  function MostCost(j: nat): nat {
    if j < 8 then j / 2 + 3 else j - 2
  }

  lemma CostBound(low: nat, j: nat)
    requires low < Pow(2, j)
    ensures Cost(low) <= MostCost(j)
  {
    hide Ones, Pow, Cost, EndingOf, InvertLowestOne;
    PowZero(2);
    match EndingOf(low)
    case Zero => CostNothing();
    case One(z) =>
      LimitOne(z, j);
      CostOdd(z);
    case Eight(y) =>
      LimitEight(y, j);
      CostEight(y);
    case Two(y) => CostBoundTwo(y, j);
    case Four(y) => CostBoundFour(y, j);
  }

  lemma CostBoundTwo(y: nat, j: nat)
    requires 4 * y + 2 < Pow(2, j)
    ensures Cost(4 * y + 2) <= MostCost(j)
  {
    hide Ones, Pow, Cost;
    LimitTwo(y, j);
    if Ones(y) == 0 {
      OnesNone(y);
      SmallBits();
      CostSingle(1);
    } else {
      CostTwo(y);
    }
  }

  lemma CostBoundFour(y: nat, j: nat)
    requires 8 * y + 4 < Pow(2, j)
    ensures Cost(8 * y + 4) <= MostCost(j)
  {
    hide Ones, Pow, Cost;
    LimitFour(y, j);
    if Ones(y) == 0 {
      OnesNone(y);
      SmallBits();
      CostSingle(2);
    } else {
      CostFour(y);
    }
  }

  lemma LimitOne(z: nat, j: nat)
    requires 2 * z + 1 < Pow(2, j)
    ensures j > 0 && Ones(2 * z) <= j - 1
  {
    OnesDouble(z);
    OnesBound(z, j - 1);
  }

  lemma LimitTwo(y: nat, j: nat)
    requires 4 * y + 2 < Pow(2, j)
    ensures j >= 2 && Ones(y) <= j - 2
  {
    PowQuarter(j);
    OnesBound(y, j - 2);
  }

  lemma LimitFour(y: nat, j: nat)
    requires 8 * y + 4 < Pow(2, j)
    ensures j >= 3 && Ones(y) <= j - 3
  {
    PowQuarter(j);
    OnesBound(y, j - 3);
  }

  lemma LimitEight(y: nat, j: nat)
    requires 0 < 8 * y < Pow(2, j)
    ensures j >= 4 && Ones(y) <= j - 3
  {
    PowQuarter(j);
    OnesBound(y, j - 3);
  }

  lemma PowQuarter(j: nat)
    ensures Pow(2, 0) == 1 && Pow(2, 1) == 2 && Pow(2, 2) == 4 && Pow(2, 3) == 8
    ensures j >= 2 ==> Pow(2, j) == 4 * Pow(2, j - 2)
    ensures j >= 3 ==> Pow(2, j) == 8 * Pow(2, j - 3)
  {
  }

  /** The most steps down from a height whose last `i` bits are ones, to a height with the same bits above
      those. */
  function MostFull(i: nat): nat {
    if i <= 2 then i else if i == 3 then 4 else (i - 1) / 2 + 2 + MostFull(i - 1)
  }

  /** The most steps between heights below two to the power `k`. */
  function MostHops(k: nat): nat {
    if k == 0 then 0
    else
      var here, below := MostCost(k - 1) + MostFull(k - 1), MostHops(k - 1);
      if here > below then here else below
  }

  lemma {:induction false} MostFullGrows(i: nat)
    ensures i > 0 ==> MostFull(i - 1) <= MostFull(i)
  {
  }

  /** From a height whose last bits are ones. */
  lemma {:induction false} FullBounded(n: nat, i: nat, t: nat)
    requires Aligned(n, i) && n <= t < n + Pow(2, i)
    ensures Hops(n + Pow(2, i) - 1, t) <= MostFull(i)
    decreases i
  {
    hide Hops, Aligned, Pow;
    PowZero(2);
    HopsNone(t);
    if i > 0 {
      var j := i - 1;
      PowNext(2, j);
      AlignedHalf(n, j);
      MostFullGrows(i);
      if t >= n + Pow(2, j) {
        FullBounded(n + Pow(2, j), j, t);
      } else {
        FullBounded(n, j, t);
        if i <= 3 {
          FewBits(n, i, t);
        } else {
          RegionCost(n, j, Pow(2, j) - 1, t, MostFull(j));
          FullCost(j);
        }
      }
    }
  }

  lemma FullCost(j: nat)
    requires j > 0
    ensures Cost(Pow(2, j) - 1) == j / 2 + 2
  {
    hide Ones, Cost, Pow;
    PowNext(2, j - 1);
    var z := Pow(2, j - 1) - 1;
    OnesFull(j - 1);
    OnesDouble(z);
    CostOdd(z);
  }

  /** At most three bits, one height at a time. */
  lemma FewBits(n: nat, i: nat, t: nat)
    requires 1 <= i <= 3 && Aligned(n, i) && n <= t < n + Pow(2, i - 1)
    ensures Hops(n + Pow(2, i) - 1, t) <= MostFull(i)
  {
    hide Hops;
    if i == 1 {
      OneMoreHop(n, t);
    } else if i == 2 {
      TwoBits(n, t);
    } else {
      assert Aligned(n / 2, 2) && Aligned(n / 2 / 2, 1);
      ThreeBits(n, t);
    }
  }

  /** Skip heights just above a multiple of four. */
  lemma NearSkips(n: nat)
    requires n % 4 == 0
    ensures SkipHeight(n + 2) == n
    ensures if n == 0 then SkipHeight(n + 3) == 1 else SkipHeight(n + 3) < n
  {
    var y := n / 4;
    LastBits(y);
    if y > 0 {
      InvertLess(y);
    }
  }

  lemma TwoBits(n: nat, t: nat)
    requires n % 4 == 0 && n <= t <= n + 1
    ensures Hops(n + 3, t) <= 2
  {
    hide Hops, SkipHeight;
    NearSkips(n);
    HopsStep(n + 3, t);
    HopsStep(n + 2, t);
    OneMoreHop(n, t);
    HopsNone(t);
  }

  lemma ThreeBits(n: nat, t: nat)
    requires n % 8 == 0 && n <= t <= n + 3
    ensures Hops(n + 7, t) <= 4
  {
    hide Hops, SkipHeight;
    NearSkips(n);
    HigherSkips(n);
    HopsStep(n + 7, t);
    HopsNone(t);
    if t <= n + 1 {
      OneMoreHop(n, t);
    } else {
      HopsStep(n + 6, t);
      HopsStep(n + 4, t);
      OneMoreHop(n + 2, t);
    }
  }

  lemma HigherSkips(n: nat)
    requires n % 8 == 0
    ensures SkipHeight(n + 7) == n + 1 && SkipHeight(n + 6) == n + 4 && SkipHeight(n + 4) == n
    ensures SkipHeight(n + 5) <= n + 1
  {
    var y := n / 8;
    LastBits(y);
    if y > 0 {
      InvertLess(y);
    }
  }

  /** Between any two heights with the same bits above the last `k`. */
  lemma {:induction false} HopsWithin(n: nat, k: nat, h: nat, t: nat)
    requires Aligned(n, k) && n <= t <= h < n + Pow(2, k)
    ensures Hops(h, t) <= MostHops(k)
    decreases k
  {
    hide Hops, Aligned, Pow, MostCost, MostFull, Cost;
    PowZero(2);
    HopsNone(t);
    if k > 0 {
      var j := k - 1;
      PowNext(2, j);
      AlignedHalf(n, j);
      if t >= n + Pow(2, j) {
        HopsWithin(n + Pow(2, j), j, h, t);
      } else if h < n + Pow(2, j) {
        HopsWithin(n, j, h, t);
      } else {
        var low := h - n - Pow(2, j);
        FullBounded(n, j, t);
        RegionCost(n, j, low, t, MostFull(j));
        CostBound(low, j);
      }
    }
  }

  /** The number of steps grows with the square of the number of bits only, and stays within 110 steps for
      2^18 blocks. */
  lemma HopsBounded(h: nat, t: nat)
    requires t <= h
    ensures forall k: nat | h < Pow(2, k) :: Hops(h, t) <= MostHops(k)
    ensures h < 262_144 ==> Hops(h, t) <= 110
  {
    hide Hops, Pow, Aligned;
    forall k: nat | h < Pow(2, k)
      ensures Hops(h, t) <= MostHops(k)
    {
      ZeroAligned(k);
      HopsWithin(0, k, h, t);
    }
    if h < 262_144 {
      TwoToThe18();
    }
  }

  lemma {:induction false} ZeroAligned(k: nat)
    ensures Aligned(0, k)
  {
    if k > 0 {
      ZeroAligned(k - 1);
    }
  }

  lemma TwoToThe18()
    ensures Pow(2, 18) == 262_144 && MostHops(18) == 110
  {
    PowAdd(2, 9, 9);
    assert Pow(2, 9) == 512;
    assert MostFull(9) == 31 && MostFull(13) == 59 && MostFull(17) == 95;
    assert MostHops(9) == 31 && MostHops(13) == 61;
  }

  /** The bounds in closed form. */
  lemma {:induction false} MostFullIs(i: nat)
    requires i >= 3
    ensures 4 * MostFull(i) == i * i + 6 * i - Rest(i)
  {
    hide *;
    RestStep(i);
    if i == 3 {
      FullThree();
    } else {
      MostFullIs(i - 1);
      MostFullStep(i);
      SquareStep(i);
    }
  }

  function Rest(i: nat): int {
    if i % 2 == 1 then 11 else 12
  }

  lemma RestStep(i: nat)
    requires i > 0
    ensures 4 * ((i - 1) / 2) == 2 * i - 3 - Rest(i) + Rest(i - 1) && 11 <= Rest(i) <= 12
  {
  }

  lemma FullThree()
    ensures MostFull(3) == 4 && Rest(3) == 11
  {
  }

  lemma MostFullStep(i: nat)
    requires i > 3
    ensures MostFull(i) == (i - 1) / 2 + 2 + MostFull(i - 1)
  {
  }

  lemma SquareStep(i: int)
    ensures i * i == (i - 1) * (i - 1) + 2 * i - 1
  {
  }

  lemma {:induction false} MostHopsIs(k: nat)
    requires k >= 9
    ensures 4 * MostHops(k) <= k * k + 8 * k - 28
  {
    hide *;
    MostHopsStep(k);
    FullPart(k);
    if k == 9 {
      EightBits();
    } else {
      MostHopsIs(k - 1);
      SquareStep(k);
    }
  }

  lemma MostHopsStep(k: nat)
    requires k >= 9
    ensures MostHops(k) == k - 3 + MostFull(k - 1) || MostHops(k) == MostHops(k - 1)
  {
    hide MostFull;
  }

  lemma FullPart(k: nat)
    requires k >= 9
    ensures 4 * (k - 3 + MostFull(k - 1)) <= k * k + 8 * k - 28
  {
    hide *;
    MostFullIs(k - 1);
    RestStep(k - 1);
    SquareStep(k);
  }

  lemma EightBits()
    ensures MostHops(8) == 26
  {
    assert MostFull(5) == 11 && MostFull(7) == 20;
    assert MostHops(4) == 8;
  }

  // ----- The bound is reached -----

  /** Heights from which the walk down to height 2 takes as long as it can. */
  predicate Slow(e: Ending) {
    e.Two? || e.Four? ==> Ones(e.y) == 0
  }

  lemma {:induction false} SlowDescent(j: nat, low: nat)
    requires j >= 2 && low < Pow(2, j) && Slow(EndingOf(low))
    ensures Pow(2, j) >= 4
    ensures Hops(Pow(2, j) + low, 2) == Cost(low) + Hops(Pow(2, j) - 1, 2)
    decreases low
  {
    hide Hops, Aligned, Ones, InvertLowestOne, SkipHeight, UseSkip, Pow, EndingOf, Cost;
    FourAtLeast(j);
    ZeroAligned(j + 1);
    var v := Hops(Pow(2, j) - 1, 2);
    assert Region(0, j, low, 2, v);
    match EndingOf(low)
    case Zero =>
      BottomStep(j);
      CostNothing();
    case One(z) =>
      if Ones(2 * z) >= 2 {
        var y := OddMany(0, j, z, 2, v);
        EndsInOne(y);
        SlowDescent(j, 2 * y + 1);
      } else {
        LastSteps(j, z);
        OddLastCost(z);
        SlowDescent(j, 2 * z);
      }
    case Eight(y) =>
      EvenLong(0, j, y, 2, v);
      SlowZeros(InvertLowestOne(y));
      SlowDescent(j, 8 * InvertLowestOne(y));
    case Two(y) =>
      OnesNone(y);
      SingleSteps(j, 1);
    case Four(y) =>
      OnesNone(y);
      SingleSteps(j, 2);
  }

  lemma SlowZeros(y: nat)
    ensures Slow(EndingOf(8 * y))
  {
    hide EndingOf, Ones;
    if y > 0 {
      EndsInEight(y);
    } else {
      assert EndingOf(0).Zero?;
    }
  }

  lemma {:induction false} FourAtLeast(j: nat)
    requires j >= 2
    ensures Pow(2, j) >= 4
  {
    if j > 2 {
      FourAtLeast(j - 1);
    }
  }

  lemma BottomStep(j: nat)
    requires j >= 2
    ensures Pow(2, j) >= 4
    ensures Hops(Pow(2, j), 2) == 1 + Hops(Pow(2, j) - 1, 2)
  {
    hide Hops, InvertLowestOne, SkipHeight, UseSkip;
    FourAtLeast(j);
    ZeroAligned(j + 1);
    AlignedHalf(0, j);
    var w := EvenBase(Pow(2, j), j);
    SkipOf(w);
    SkipAtLeast(Pow(2, j), 2);
    HopsStep(Pow(2, j), 2);
  }

  /** No skip is used, because height 1 is below the target. */
  lemma LastSteps(j: nat, z: nat)
    requires j >= 2 && 2 * z + 1 < Pow(2, j) && Ones(2 * z) <= 1
    ensures Hops(Pow(2, j) + 2 * z + 1, 2) == 1 + Hops(Pow(2, j) + 2 * z, 2)
    ensures Slow(EndingOf(2 * z))
  {
    hide Hops, SkipHeight, InvertLowestOne, Aligned, Pow, Ones, UseSkip, EndingOf;
    FourAtLeast(j);
    ZeroAligned(j + 1);
    HopsStep(Pow(2, j) + 2 * z + 1, 2);
    SkipAtLeast(Pow(2, j) + 2 * z + 1, 2);
    SlowSingle(2 * z);
    if SkipHeight(Pow(2, j) + 2 * z + 1) >= 2 {
      LeavesTo(0, j, z, 2);
    }
  }

  lemma SlowSingle(x: nat)
    requires Ones(x) <= 1
    ensures Slow(EndingOf(x))
  {
    hide Ones, InvertLowestOne, EndingOf;
    match EndingOf(x)
    case Two(y) => LastBits(y);
    case Four(y) => LastBits(y);
    case _ =>
  }

  lemma SingleSteps(j: nat, z: nat)
    requires j >= 2 && 2 * z < Pow(2, j) && 1 <= z <= 2
    ensures Pow(2, j) >= 4
    ensures Hops(Pow(2, j) + 2 * z, 2) == Cost(2 * z) + Hops(Pow(2, j) - 1, 2)
  {
    hide Hops, SkipHeight, InvertLowestOne, Aligned, Pow, Ones, UseSkip, Cost;
    FourAtLeast(j);
    ZeroAligned(j + 1);
    AlignedHalf(0, j);
    SmallBits();
    SkipEven(Pow(2, j), j, z);
    CostSingle(z);
    BottomStep(j);
    UseSkipIs(Pow(2, j) + 2 * z, 2, Pow(2, j), SkipHeight(Pow(2, j) + 2 * z - 1));
    if SkipHeight(Pow(2, j) + 2 * z - 1) >= 2 {
      LeavesTo(0, j, z - 1, 2);
    }
  }

  lemma {:induction false} FullReached(i: nat)
    requires i >= 3
    ensures Pow(2, i) >= 4
    ensures Hops(Pow(2, i) - 1, 2) == MostFull(i)
  {
    hide Hops, Ones, Cost, Pow, EndingOf;
    FourAtLeast(i);
    if i == 3 {
      Seven();
    } else {
      var j := i - 1;
      PowNext(2, j);
      FullReached(j);
      FullCost(j);
      PowNext(2, j - 1);
      EndsInOne(Pow(2, j - 1) - 1);
      SlowDescent(j, Pow(2, j) - 1);
    }
  }

  lemma Seven()
    ensures Pow(2, 3) == 8 && Hops(7, 2) == 4
  {
    hide Hops, SkipHeight;
    NearSkips(0);
    HigherSkips(0);
    HopsStep(7, 2);
    HopsStep(6, 2);
    HopsStep(4, 2);
    HopsStep(3, 2);
    HopsNone(2);
  }

  /** From 2^18 - 8 down to 2 it takes 110 steps. */
  lemma MostReached()
    ensures Hops(262_136, 2) == 110
  {
    hide Hops, Ones, Cost;
    PowAdd(2, 9, 8);
    assert Pow(2, 8) == 256 && Pow(2, 9) == 512;
    SlowZeros(16_383);
    SlowDescent(17, 131_064);
    FullReached(17);
    assert MostFull(9) == 31 && MostFull(13) == 59 && MostFull(17) == 95;
    FourteenOnes();
  }

  lemma FourteenOnes()
    ensures Cost(131_064) == 15
  {
    hide Ones, Cost;
    CostEight(16_383);
    assert Pow(2, 14) == 16_384 by {
      PowAdd(2, 7, 7);
      assert Pow(2, 7) == 128;
    }
    OnesFull(14);
  }
}
