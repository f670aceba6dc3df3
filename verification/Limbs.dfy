/** Numbers as limbs, least significant first, and the facts about them that 256-bit arithmetic needs. */
module Limbs {
  import opened Numerals

  const WIDTH := 8
  const LIMB := 0x1_0000_0000

  predicate IsLimbs(s: seq<nat>) {
    forall i | 0 <= i < |s| :: s[i] < LIMB
  }

  function Num(s: seq<nat>): nat {
    if s == [] then 0 else Num(s[..|s| - 1]) + s[|s| - 1] * Pow(LIMB, |s| - 1)
  }

  lemma NumSnoc(s: seq<nat>, x: nat)
    ensures Num(s + [x]) == Num(s) + x * Pow(LIMB, |s|)
  {
    assert (s + [x])[..|s|] == s;
  }

  lemma NumStep(s: seq<nat>, i: nat)
    requires i < |s|
    ensures Num(s[..i + 1]) == Num(s[..i]) + s[i] * Pow(LIMB, i)
    ensures Num(s[..0]) == 0
  {
    assert s[..i + 1] == s[..i] + [s[i]];
    NumSnoc(s[..i], s[i]);
  }

  lemma {:induction false} NumBound(s: seq<nat>)
    requires IsLimbs(s)
    ensures Num(s) < Pow(LIMB, |s|)
  {
    if s != [] {
      var n := |s| - 1;
      NumBound(s[..n]);
      MulMonotone(s[n] + 1, LIMB, Pow(LIMB, n), Pow(LIMB, n));
      assert (s[n] + 1) * Pow(LIMB, n) == s[n] * Pow(LIMB, n) + Pow(LIMB, n);
      assert LIMB * Pow(LIMB, n) == Pow(LIMB, n + 1);
    }
  }

  lemma {:induction false} NumConcat(s: seq<nat>, t: seq<nat>)
    ensures Num(s + t) == Num(s) + Num(t) * Pow(LIMB, |s|)
  {
    if t == [] {
      assert s + t == s;
    } else {
      var init, x := t[..|t| - 1], t[|t| - 1];
      assert s + t == s + init + [x] && t == init + [x];
      NumConcat(s, init);
      ConcatStep(s, init, x);
    }
  }

  lemma ConcatStep(s: seq<nat>, t: seq<nat>, x: nat)
    requires Num(s + t) == Num(s) + Num(t) * Pow(LIMB, |s|)
    ensures Num(s + t + [x]) == Num(s) + Num(t + [x]) * Pow(LIMB, |s|)
  {
    hide Num, Pow;
    NumSnoc(s + t, x);
    NumSnoc(t, x);
    PowAdd(LIMB, |t|, |s|);
    Distribute(Num(t), x * Pow(LIMB, |t|), Pow(LIMB, |s|));
    Regroup(x, Pow(LIMB, |t|), Pow(LIMB, |s|));
  }

  lemma {:induction false} NumZeros(s: seq<nat>)
    requires forall i | 0 <= i < |s| :: s[i] == 0
    ensures Num(s) == 0
  {
    if s != [] {
      NumZeros(s[..|s| - 1]);
    }
  }

  /** Two numbers of the same length compare as their highest different limbs. */
  lemma HighestDiffers(s: seq<nat>, t: seq<nat>, i: nat)
    requires IsLimbs(s) && IsLimbs(t) && |s| == |t| && i < |s| && s[i + 1..] == t[i + 1..] && s[i] < t[i]
    ensures Num(s) < Num(t)
  {
    hide Num, Pow;
    assert s == s[..i + 1] + s[i + 1..] && t == t[..i + 1] + t[i + 1..];
    NumConcat(s[..i + 1], s[i + 1..]);
    NumConcat(t[..i + 1], t[i + 1..]);
    NumStep(s, i);
    NumStep(t, i);
    NumBound(s[..i]);
    var p := Pow(LIMB, i);
    MulMonotone(s[i] + 1, t[i], p, p);
    Distribute(s[i], 1, p);
  }
}
