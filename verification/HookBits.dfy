/** `gen_hook_bits.py`: the default mask of the hook bits, and the bash test that reads it. */
module HookBits {
  import opened Binary

  /** One `EnumHookBit` member, in declaration order. */
  datatype Member = Member(name: string, value: nat)

  /** Binary digit `i` of `a`. */
  predicate Bit(a: nat, i: nat) {
    if i == 0 then a % 2 == 1 else Bit(a / 2, i - 1)
  }

  function Or(a: nat, b: nat): nat {
    if a == 0 then b else if b == 0 then a
    else (if a % 2 == 1 || b % 2 == 1 then 1 else 0) + 2 * Or(a / 2, b / 2)
  }

  function And(a: nat, b: nat): nat {
    if a == 0 || b == 0 then 0
    else (if a % 2 == 1 && b % 2 == 1 then 1 else 0) + 2 * And(a / 2, b / 2)
  }

  lemma {:induction false} ZeroBits(i: nat)
    ensures !Bit(0, i)
  {
    if i > 0 { ZeroBits(i - 1); }
  }

  lemma {:induction false} OrBit(a: nat, b: nat, i: nat)
    ensures Bit(Or(a, b), i) <==> Bit(a, i) || Bit(b, i)
  {
    ZeroBits(i);
    if a != 0 && b != 0 && i > 0 {
      assert Or(a, b) / 2 == Or(a / 2, b / 2);
      OrBit(a / 2, b / 2, i - 1);
    }
  }

  lemma {:induction false} AndBit(a: nat, b: nat, i: nat)
    ensures Bit(And(a, b), i) <==> Bit(a, i) && Bit(b, i)
  {
    ZeroBits(i);
    if a != 0 && b != 0 && i > 0 {
      assert And(a, b) / 2 == And(a / 2, b / 2);
      AndBit(a / 2, b / 2, i - 1);
    }
  }

  /** Bit `i` is the digit of the power 2^i: what remains is a multiple of the next power and a number
      below this one. */
  lemma {:induction false} BitSplits(a: nat, i: nat) returns (high: nat, low: nat)
    ensures a == high * Pow2(i + 1) + (if Bit(a, i) then Pow2(i) else 0) + low && low < Pow2(i)
  {
    if i == 0 {
      high, low := a / 2, 0;
    } else {
      var h, l := BitSplits(a / 2, i - 1);
      high, low := h, 2 * l + a % 2;
      Doubled(h, Pow2(i));
    }
  }

  lemma Doubled(h: int, p: int)
    ensures 2 * (h * p) == h * (2 * p)
  {
  }

  lemma {:induction false} OrBound(a: nat, b: nat, n: nat)
    requires a < Pow2(n) && b < Pow2(n)
    ensures Or(a, b) < Pow2(n)
  {
    if a != 0 && b != 0 {
      OrBound(a / 2, b / 2, n - 1);
    }
  }

  lemma {:induction false} PowBit(i: nat, j: nat)
    ensures Bit(Pow2(i), j) <==> i == j
  {
    if i > 0 && j > 0 {
      PowBit(i - 1, j - 1);
    } else if j > 0 {
      ZeroBits(j - 1);
    }
  }

  lemma {:induction false} PowMonotone(i: nat, n: nat)
    requires i < n
    ensures Pow2(i) < Pow2(n)
  {
    if i + 1 < n { PowMonotone(i, n - 1); }
  }

  /** Masking with a single bit gives something other than zero exactly when that bit is set. */
  lemma {:induction false} AndPow(a: nat, i: nat)
    ensures And(a, Pow2(i)) != 0 <==> Bit(a, i)
  {
    ZeroBits(i);
    if a != 0 && i > 0 {
      AndPow(a / 2, i - 1);
    }
  }

  // ---- The generator ----

  ghost predicate InOrder(members: seq<Member>) {
    forall i :: 0 <= i < |members| ==> members[i].value == Pow2(i)
  }

  /** `_assert_declaration_order`; false is its `RuntimeError`. */
  method AssertDeclarationOrder(members: seq<Member>) returns (ok: bool)
    ensures ok <==> InOrder(members)
  {
    for i := 0 to |members|
      invariant forall j :: 0 <= j < i ==> members[j].value == Pow2(j)
    {
      if members[i].value != Pow2(i) {
        return false;
      }
    }
    return true;
  }

  /** `_compute_default_mask`: the values of the members that are not disabled, folded with `|`. */
  function DefaultMask(members: seq<Member>, disabled: set<string>): nat {
    if members == [] then 0
    else
      var acc, m := DefaultMask(members[..|members| - 1], disabled), members[|members| - 1];
      if m.name in disabled then acc else Or(acc, m.value)
  }

  /** The mask of n members in declaration order fits in n bits. */
  lemma {:induction false} MaskBound(members: seq<Member>, disabled: set<string>)
    requires InOrder(members)
    ensures DefaultMask(members, disabled) < Pow2(|members|)
  {
    if members != [] {
      var n := |members| - 1;
      MaskBound(members[..n], disabled);
      PowMonotone(n, n + 1);
      OrBound(DefaultMask(members[..n], disabled), members[n].value, n + 1);
    }
  }

  /** Bit `i` of the mask is set exactly when member `i` exists and is not disabled. */
  lemma {:induction false} MaskBits(members: seq<Member>, disabled: set<string>, i: nat)
    requires InOrder(members)
    ensures Bit(DefaultMask(members, disabled), i) <==> i < |members| && members[i].name !in disabled
  {
    if members == [] {
      ZeroBits(i);
    } else {
      var n := |members| - 1;
      MaskBits(members[..n], disabled, i);
      OrBit(DefaultMask(members[..n], disabled), members[n].value, i);
      PowBit(n, i);
    }
  }

  /** The test with unbounded integers: a member is on in the mask exactly when it is not disabled. */
  lemma EnabledIff(members: seq<Member>, disabled: set<string>, i: nat)
    requires InOrder(members) && i < |members|
    ensures And(DefaultMask(members, disabled), members[i].value) != 0 <==> members[i].name !in disabled
  {
    MaskBits(members, disabled, i);
    AndPow(DefaultMask(members, disabled), i);
  }

  /** Different sets of disabled members give different masks. */
  lemma MaskDetermines(members: seq<Member>, d: set<string>, e: set<string>, i: nat)
    requires InOrder(members) && DefaultMask(members, d) == DefaultMask(members, e) && i < |members|
    ensures members[i].name in d <==> members[i].name in e
  {
    MaskBits(members, d, i);
    MaskBits(members, e, i);
  }

  // ---- The generated bash test ----

  /** The low `k` bits, which is what a k-bit register keeps. */
  function Low(a: nat, k: nat): nat {
    if k == 0 then 0 else a % 2 + 2 * Low(a / 2, k - 1)
  }

  lemma {:induction false} LowIsRemainder(a: nat, k: nat) returns (q: nat)
    ensures a == q * Pow2(k) + Low(a, k) && Low(a, k) < Pow2(k)
  {
    if k == 0 {
      q := a;
    } else {
      q := LowIsRemainder(a / 2, k - 1);
      assert 2 * (q * Pow2(k - 1)) == q * Pow2(k);
    }
  }

  lemma {:induction false} LowBit(a: nat, k: nat, i: nat)
    ensures Bit(Low(a, k), i) <==> i < k && Bit(a, i)
  {
    if k == 0 {
      ZeroBits(i);
    } else {
      LowHalves(a, k);
      if i > 0 {
        LowBit(a / 2, k - 1, i - 1);
      }
    }
  }

  lemma LowHalves(a: nat, k: nat)
    requires k > 0
    ensures Low(a, k) / 2 == Low(a / 2, k - 1) && Low(a, k) % 2 == a % 2
  {
  }

  lemma {:induction false} LowPow(i: nat, k: nat)
    ensures Low(Pow2(i), k) == if i < k then Pow2(i) else 0
  {
    if k > 0 {
      if i == 0 {
        LowZero(k - 1);
      } else {
        LowPow(i - 1, k - 1);
      }
    }
  }

  lemma {:induction false} LowZero(k: nat)
    ensures Low(0, k) == 0
  {
    if k > 0 { LowZero(k - 1); }
  }

  /** `(( mask & bit ))` in 64-bit arithmetic. */
  predicate BashEnabled(mask: nat, bit: nat) {
    And(Low(mask, 64), Low(bit, 64)) != 0
  }

  /** The bash test agrees with the enum for a member exactly when the member is disabled or its
      bit is one of the 64 that bash arithmetic has. */
  lemma BashAgreesIff(members: seq<Member>, disabled: set<string>, i: nat)
    requires InOrder(members) && i < |members|
    ensures (BashEnabled(DefaultMask(members, disabled), members[i].value) <==> members[i].name !in disabled)
            <==> i < 64 || members[i].name in disabled
  {
    var mask := DefaultMask(members, disabled);
    MaskBits(members, disabled, i);
    LowPow(i, 64);
    AndPow(Low(mask, 64), i);
    LowBit(mask, 64, i);
  }
}
