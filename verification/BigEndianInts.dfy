/** Big-endian integers: without leading zeros, and of a fixed width. */
module BigEndianInts {
  import opened Common

  function BigEndian(n: nat): Bytes {
    if n == 0 then [] else BigEndian(n / 256) + [n % 256]
  }

  function FromBigEndian(b: Bytes): nat {
    if b == [] then 0 else FromBigEndian(b[..|b| - 1]) * 256 + b[|b| - 1]
  }

  lemma {:induction false} BigEndianInverse(n: nat)
    ensures FromBigEndian(BigEndian(n)) == n
    ensures n > 0 ==> BigEndian(n) != [] && BigEndian(n)[0] != 0
  {
    if n > 0 {
      BigEndianInverse(n / 256);
      var init := BigEndian(n / 256);
      assert BigEndian(n)[..|BigEndian(n)| - 1] == init;
    }
  }

  function Pow256(k: nat): nat {
    if k == 0 then 1 else 256 * Pow256(k - 1)
  }

  lemma {:induction false} BigEndianFits(n: nat, k: nat)
    requires n < Pow256(k)
    ensures |BigEndian(n)| <= k
    decreases k
  {
    if n > 0 {
      assert n / 256 < Pow256(k - 1);
      BigEndianFits(n / 256, k - 1);
    }
  }

  lemma U64Fits(n: U64)
    ensures |BigEndian(n)| <= 8
  {
    Pow256OfWord();
    BigEndianFits(n, 8);
  }

  lemma {:induction false} FromBigEndianBound(b: Bytes)
    ensures FromBigEndian(b) < Pow256(|b|)
  {
    if b != [] {
      FromBigEndianBound(b[..|b| - 1]);
    }
  }

  lemma {:induction false} Pow256Monotone(j: nat, k: nat)
    requires j <= k
    ensures Pow256(j) <= Pow256(k)
    decreases k
  {
    if j < k {
      Pow256Monotone(j, k - 1);
    }
  }

  lemma {:induction false} FromBigEndianInverse(b: Bytes)
    requires b == [] || b[0] != 0
    ensures BigEndian(FromBigEndian(b)) == b
  {
    if b != [] {
      var init, last := b[..|b| - 1], b[|b| - 1];
      FromBigEndianInverse(init);
      var n := FromBigEndian(init);
      if n == 0 {
        assert init == [];
      }
      assert (n * 256 + last) / 256 == n && (n * 256 + last) % 256 == last;
      assert FromBigEndian(b) > 0;
    }
  }

  // ---- fixed width ----

  function Fixed(n: nat, width: nat): (r: Bytes)
    ensures |r| == width
  {
    if width == 0 then [] else Fixed(n / 256, width - 1) + [n % 256]
  }

  lemma {:induction false} FixedInverse(n: nat, width: nat)
    requires n < Pow256(width)
    ensures FromBigEndian(Fixed(n, width)) == n
  {
    if width > 0 {
      assert n / 256 < Pow256(width - 1);
      FixedInverse(n / 256, width - 1);
      var f := Fixed(n, width);
      assert f[..|f| - 1] == Fixed(n / 256, width - 1);
    }
  }

  lemma {:induction false} FixedOf(b: Bytes)
    ensures Fixed(FromBigEndian(b), |b|) == b
  {
    if b != [] {
      var init, last := b[..|b| - 1], b[|b| - 1];
      FixedOf(init);
      var n := FromBigEndian(init);
      assert (n * 256 + last) / 256 == n && (n * 256 + last) % 256 == last;
    }
  }

  lemma Pow256OfWord()
    ensures Pow256(8) == U64_MODULUS
  {
    assert Pow256(4) == 0x1_0000_0000;
  }

  // ---- words ----

  /** The width of every number, length and index field. */
  const WORD_SIZE: nat := 8

  function Word(n: U64): Bytes {
    Fixed(n, WORD_SIZE)
  }

  function ReadWord(b: Bytes): U64
    requires |b| == WORD_SIZE
  {
    WordOf(b);
    FromBigEndian(b)
  }

  lemma WordOf(b: Bytes)
    requires |b| == WORD_SIZE
    ensures FromBigEndian(b) <= U64_MAX && Word(FromBigEndian(b)) == b
  {
    Pow256OfWord();
    FromBigEndianBound(b);
    FixedOf(b);
  }

  lemma ReadWritten(n: U64)
    ensures ReadWord(Word(n)) == n
  {
    Pow256OfWord();
    FixedInverse(n, WORD_SIZE);
  }

  lemma WordInjective(a: U64, b: U64)
    requires Word(a) == Word(b)
    ensures a == b
  {
    Pow256OfWord();
    FixedInverse(a, WORD_SIZE);
    FixedInverse(b, WORD_SIZE);
  }
}
