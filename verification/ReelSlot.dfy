/** The place of the reels in the feed: a 32-bit rolling hash of the account and the hour. */
module ReelSlot {
  import opened Common

  const WORD := 0x1_0000_0000
  const MAX_SAFE_INTEGER := 0x1F_FFFF_FFFF_FFFF
  const BASE := 31

  predicate IsHigh(c: CodeUnit) {
    0xD800 <= c <= 0xDBFF
  }

  predicate IsLow(c: CodeUnit) {
    0xDC00 <= c <= 0xDFFF
  }

  predicate IsPair(t: Text, i: nat) {
    i + 1 < |t| && IsHigh(t[i]) && IsLow(t[i + 1])
  }

  /** `[...t]` walks code points and `charCodeAt(0)` keeps the first unit of each. */
  function FirstUnits(t: Text): Text {
    if t == [] then [] else [t[0]] + FirstUnits(if IsPair(t, 0) then t[2..] else t[1..])
  }

  lemma {:induction false} FirstUnitsLength(t: Text)
    ensures |FirstUnits(t)| <= |t|
  {
    if t != [] {
      FirstUnitsLength(if IsPair(t, 0) then t[2..] else t[1..]);
    }
  }

  /** A unit is left out exactly if it completes a pair with the one before it. */
  lemma {:induction false} FirstUnitsAppend(t: Text, c: CodeUnit)
    ensures FirstUnits(t + [c]) == FirstUnits(t) + if t != [] && IsHigh(t[|t| - 1]) && IsLow(c) then [] else [c]
  {
    if t != [] {
      var all := t + [c];
      if IsPair(t, 0) {
        assert IsPair(all, 0) && all[2..] == t[2..] + [c];
        FirstUnitsAppend(t[2..], c);
        assert t == t[..2] + t[2..];
      } else if |t| > 1 {
        assert !IsPair(all, 0) && all[1..] == t[1..] + [c];
        FirstUnitsAppend(t[1..], c);
      } else {
        assert all[1..] == [c] && t[1..] == [] && FirstUnits([]) == [];
        assert IsPair(all, 0) ==> all[2..] == [];
      }
    }
  }

  /** Every unit of the seed is hashed exactly when no character of it needs two. */
  lemma {:induction false} AllUnitsHashedIff(t: Text)
    ensures FirstUnits(t) == t <==> forall i: nat :: !IsPair(t, i)
  {
    if t != [] {
      if IsPair(t, 0) {
        FirstUnitsLength(t[2..]);
      } else {
        AllUnitsHashedIff(t[1..]);
        forall i: nat ensures i > 0 ==> IsPair(t, i) == IsPair(t[1..], i - 1) {}
        assert (forall i: nat :: !IsPair(t, i)) ==> forall i: nat :: !IsPair(t[1..], i) by {
          if forall i: nat :: !IsPair(t, i) {
            forall i: nat ensures !IsPair(t[1..], i) {
              assert !IsPair(t, i + 1);
            }
          }
        }
        assert t == [t[0]] + t[1..];
      }
    }
  }

  /** One turn of the reduce: the unsigned 32-bit value of `value*31 + code`. */
  function Next(value: nat, code: CodeUnit): nat {
    (value * BASE + code as nat) % WORD
  }

  function Seed(codes: Text): nat {
    if codes == [] then 0 else Next(Seed(codes[..|codes| - 1]), codes[|codes| - 1])
  }

  function Power(n: nat): nat {
    if n == 0 then 1 else BASE * Power(n - 1)
  }

  /** The base-31 polynomial of the codes, from the most significant one, over unbounded integers. */
  function Polynomial(codes: Text): nat {
    if codes == [] then 0 else codes[0] as nat * Power(|codes| - 1) + Polynomial(codes[1..])
  }

  lemma {:induction false} PolynomialAppend(codes: Text, c: CodeUnit)
    ensures Polynomial(codes + [c]) == Polynomial(codes) * BASE + c as nat
  {
    if codes != [] {
      PolynomialAppend(codes[1..], c);
      assert (codes + [c])[1..] == codes[1..] + [c];
      var lead, power := codes[0] as nat, Power(|codes| - 1);
      assert Power(|codes|) == BASE * power;
      assert lead * (BASE * power) == (lead * power) * BASE;
    }
  }

  lemma ModularStep(p: nat, c: nat)
    ensures (p % WORD * BASE + c) % WORD == (p * BASE + c) % WORD
  {
    var q := p / WORD;
    assert p * BASE + c == (p % WORD * BASE + c) + q * BASE * WORD;
  }

  /**
   The reduce is the polynomial modulo 2^32, and each value before truncation is small enough for
   double-precision arithmetic to be exact.
   */
  lemma {:induction false} SeedIsPolynomial(codes: Text)
    ensures Seed(codes) == Polynomial(codes) % WORD
    ensures forall i :: 0 <= i < |codes| ==> Seed(codes[..i]) * BASE + codes[i] as nat <= MAX_SAFE_INTEGER
  {
    if codes != [] {
      var init, last := codes[..|codes| - 1], codes[|codes| - 1];
      SeedIsPolynomial(init);
      PolynomialAppend(init, last);
      assert codes == init + [last];
      ModularStep(Polynomial(init), last as nat);
      forall i | 0 <= i < |codes| ensures Seed(codes[..i]) * BASE + codes[i] as nat <= MAX_SAFE_INTEGER {
        if i < |init| {
          assert init[..i] == codes[..i];
        } else {
          assert codes[..i] == init;
        }
      }
    }
  }

  /** `Math.min(posts.length, 1 + seed % 6)`, computed only for a feed that has posts. */
  function ReelsAfterPost(seedText: Text, posts: nat): (slot: nat)
    requires posts > 0
    ensures 1 <= slot <= posts && slot <= 6
    ensures var wanted := 1 + Polynomial(FirstUnits(seedText)) % WORD % 6;
            slot == wanted || slot == posts < wanted
  {
    SeedIsPolynomial(FirstUnits(seedText));
    var slot := 1 + Seed(FirstUnits(seedText)) % 6;
    if posts < slot then posts else slot
  }
}
