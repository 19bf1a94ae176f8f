/** Powers of a base, and the word sizes as powers of 256. */
module Powers {
  import opened Evm

  function Pow(base: nat, k: nat): nat {
    if k == 0 then 1 else base * Pow(base, k - 1)
  }

  lemma {:induction false} PowPositive(base: nat, k: nat)
    requires base > 0
    ensures Pow(base, k) > 0
  {
    if k > 0 {
      PowPositive(base, k - 1);
    }
  }

  lemma {:induction false} PowAdd(base: nat, j: nat, k: nat)
    ensures Pow(base, j + k) == Pow(base, j) * Pow(base, k)
  {
    if j > 0 {
      PowAdd(base, j - 1, k);
      assert Pow(base, j + k) == base * (Pow(base, j - 1) * Pow(base, k));
    }
  }

  /** Two hexadecimal digits to the byte. */
  lemma {:induction false} PowBytes(k: nat)
    ensures Pow(16, 2 * k) == Pow(256, k) > 0
  {
    if k > 0 {
      PowBytes(k - 1);
      assert Pow(16, 2 * k) == 16 * (16 * Pow(16, 2 * k - 2));
    }
  }

  lemma WordBounds()
    ensures Pow(256, 20) == TWO_160 && Pow(256, 32) == TWO_256
    ensures Pow(256, 31) == TWO_256 / 256
  {
    assert Pow(256, 4) == 0x1_0000_0000;
    PowAdd(256, 4, 4);
    PowAdd(256, 8, 8);
    PowAdd(256, 16, 16);
    PowAdd(256, 16, 4);
    assert Pow(256, 32) == 256 * Pow(256, 31);
  }
}
