/** The group of the confidential transfer extension. Every point is a multiple of the generator G, and
    is kept as that factor, modulo the group order; H is the multiple nobody knows. What is proved holds
    for every order above 64 bits, in particular for the order of ristretto255, and for every H. */
module Group {
  import opened Common

  type order = x: int | x > 0xFFFF_FFFF_FFFF_FFFF witness 0x1_0000_0000_0000_0000

  type Point = nat

  // The remainder of the division by the order.
  function Mod(q: order, x: int): (r: nat)
    ensures r < q
    decreases x < 0, if x < 0 then -x else x
  {
    if x < 0 then Mod(q, x + q) else if x < q then x else Mod(q, x - q)
  }

  function Add(q: order, a: Point, b: Point): Point { Mod(q, a + b) }

  function Sub(q: order, a: Point, b: Point): Point { Mod(q, a - b) }

  function Scale(q: order, n: int, a: Point): Point { Mod(q, n * a) }

  lemma ModShift(q: order, x: int)
    ensures Mod(q, x + q) == Mod(q, x) == Mod(q, x - q)
  {
  }

  lemma Distribute(n: int, x: int, y: int)
    ensures n * (x - y) == n * x - n * y && n * (x + y) == n * x + n * y
  {
  }

  // A product that the proofs below need not look into.
  function Times(k: int, q: int): int { k * q }

  lemma TimesNext(k: int, q: int)
    ensures Times(k + 1, q) == Times(k, q) + q && Times(k - 1, q) == Times(k, q) - q && Times(0, q) == 0
  {
    Distribute(q, k, 1);
  }

  /** It is the remainder: what is left of a number after some multiple of the order. */
  lemma {:induction false} ModDivides(q: order, x: int) returns (k: int)
    ensures x == Times(k, q) + Mod(q, x)
    decreases x < 0, if x < 0 then -x else x
  {
    hide Times;
    if x < 0 {
      k := ModDivides(q, x + q);
      TimesNext(k, q);
      k := k - 1;
    } else if x < q {
      k := 0;
      TimesNext(0, q);
    } else {
      k := ModDivides(q, x - q);
      TimesNext(k, q);
      k := k + 1;
    }
  }

  lemma {:induction false} ModTimes(q: order, x: int, k: int)
    ensures Mod(q, x + Times(k, q)) == Mod(q, x)
    decreases if k < 0 then -k else k
  {
    hide Mod, Times;
    TimesNext(k, q);
    if k > 0 {
      ModTimes(q, x, k - 1);
      ModShift(q, x + Times(k - 1, q));
    } else if k < 0 {
      ModTimes(q, x, k + 1);
      ModShift(q, x + Times(k + 1, q));
    }
  }

  lemma ModPlus(q: order, x: int, k: int)
    ensures Mod(q, x + k * q) == Mod(q, x)
  {
    ModTimes(q, x, k);
    hide Mod;
    assert Times(k, q) == k * q;
  }

  lemma {:induction false} ModAdd(q: order, x: int, y: int)
    ensures Mod(q, x + Mod(q, y)) == Mod(q, x + y)
    decreases y < 0, if y < 0 then -y else y
  {
    if y < 0 {
      ModAdd(q, x, y + q);
      ModShift(q, x + y);
    } else if y >= q {
      ModAdd(q, x, y - q);
      ModShift(q, x + y);
    }
  }

  lemma {:induction false} ModSub(q: order, x: int, y: int)
    ensures Mod(q, x - Mod(q, y)) == Mod(q, x - y)
    decreases y < 0, if y < 0 then -y else y
  {
    if y < 0 {
      ModSub(q, x, y + q);
      ModShift(q, x - y);
    } else if y >= q {
      ModSub(q, x, y - q);
      ModShift(q, x - y);
    }
  }

  lemma ModSums(q: order, x: int, y: int)
    ensures Mod(q, Mod(q, x) + Mod(q, y)) == Mod(q, x + y)
  {
    ModAdd(q, Mod(q, x), y);
    ModAdd(q, y, x);
  }

  lemma ModDifferences(q: order, x: int, y: int)
    ensures Mod(q, Mod(q, x) - Mod(q, y)) == Mod(q, x - y)
  {
    ModSub(q, Mod(q, x), y);
    ModAdd(q, -y, x);
  }

  lemma {:induction false} ModMul(q: order, a: int, x: int)
    ensures Mod(q, a * Mod(q, x)) == Mod(q, a * x)
    decreases x < 0, if x < 0 then -x else x
  {
    if x < 0 {
      ModMul(q, a, x + q);
      ModMulShift(q, a, x);
    } else if x >= q {
      ModMul(q, a, x - q);
      ModMulShift(q, a, x - q);
    }
  }

  lemma ModMulShift(q: order, a: int, x: int)
    ensures Mod(q, a * (x + q)) == Mod(q, a * x)
  {
    hide Mod;
    Distribute(a, x, q);
    ModPlus(q, a * x, a);
  }

  lemma Commute(m: int, n: int)
    ensures m * n == n * m
  {
  }

  lemma Associate(m: int, n: int, x: int)
    ensures m * (n * x) == (m * n) * x
  {
  }

  lemma ScaleScale(q: order, m: int, n: int, a: Point)
    ensures Scale(q, m, Scale(q, n, a)) == Scale(q, m * n, a)
  {
    ModMul(q, m, n * a);
    Associate(m, n, a);
  }

  lemma ModScaleSum(q: order, n: int, x: int, y: int)
    ensures Mod(q, n * Mod(q, x + y)) == Mod(q, Mod(q, n * x) + Mod(q, n * y))
  {
    ModMul(q, n, x + y);
    Distribute(n, x, y);
    ModSums(q, n * x, n * y);
  }

  lemma ModScaleDifference(q: order, n: int, x: int, y: int)
    ensures Mod(q, n * Mod(q, x - y)) == Mod(q, Mod(q, n * x) - Mod(q, n * y))
  {
    ModMul(q, n, x - y);
    Distribute(n, x, y);
    ModDifferences(q, n * x, n * y);
  }

  lemma ModRegroup(q: order, u: int, v: int, x: int, y: int)
    requires u - v == x + y
    ensures Mod(q, Mod(q, u) - Mod(q, v)) == Mod(q, Mod(q, x) + Mod(q, y))
  {
    ModDifferences(q, u, v);
    ModSums(q, x, y);
  }

  lemma ScaleAdd(q: order, n: int, a: Point, b: Point)
    ensures Scale(q, n, Add(q, a, b)) == Add(q, Scale(q, n, a), Scale(q, n, b))
  {
    ModScaleSum(q, n, a, b);
  }

  lemma ScaleSub(q: order, n: int, a: Point, b: Point)
    ensures Scale(q, n, Sub(q, a, b)) == Sub(q, Scale(q, n, a), Scale(q, n, b))
  {
    ModScaleDifference(q, n, a, b);
  }

  lemma SubAdd(q: order, a: Point, b: Point, c: Point, d: Point)
    ensures Sub(q, Add(q, a, b), Add(q, c, d)) == Add(q, Sub(q, a, c), Sub(q, b, d))
  {
    ModRegroup(q, a + b, c + d, a - c, b - d);
  }

  // Twisted ElGamal: a Pedersen commitment and its decryption handle under one key.
  datatype Cipher = Cipher(commitment: Point, handle: Point)

  function Commit(q: order, h: Point, x: int, opening: int): Point { Mod(q, x + opening * h) }

  function Encrypt(q: order, h: Point, x: int, opening: int, pubkey: Point): Cipher {
    Cipher(Commit(q, h, x, opening), Scale(q, opening, pubkey))
  }

  // The key relation: the secret takes the public key to H.
  predicate KeyOf(q: order, h: Point, secret: int, pubkey: Point) { Scale(q, secret, pubkey) == Mod(q, h) }

  // What decryption takes the logarithm of.
  function Plain(q: order, secret: int, c: Cipher): Point { Sub(q, c.commitment, Scale(q, secret, c.handle)) }

  function AddCipher(q: order, a: Cipher, b: Cipher): Cipher {
    Cipher(Add(q, a.commitment, b.commitment), Add(q, a.handle, b.handle))
  }

  function ScaleCipher(q: order, n: int, c: Cipher): Cipher {
    Cipher(Scale(q, n, c.commitment), Scale(q, n, c.handle))
  }

  /** Decryption inverts encryption, for every key pair, amount and opening. */
  lemma PlainOfEncrypt(q: order, h: Point, x: int, opening: int, pubkey: Point, secret: int)
    requires KeyOf(q, h, secret, pubkey)
    ensures Plain(q, secret, Encrypt(q, h, x, opening, pubkey)) == Mod(q, x)
  {
    hide Mod;
    ScaleScale(q, secret, opening, pubkey);
    Commute(secret, opening);
    ScaleScale(q, opening, secret, pubkey);
    ModMul(q, opening, h);
    ModDifferences(q, x + opening * h, opening * h);
  }

  lemma PlainAdd(q: order, secret: int, a: Cipher, b: Cipher)
    ensures Plain(q, secret, AddCipher(q, a, b)) == Add(q, Plain(q, secret, a), Plain(q, secret, b))
  {
    ScaleAdd(q, secret, a.handle, b.handle);
    SubAdd(q, a.commitment, b.commitment, Scale(q, secret, a.handle), Scale(q, secret, b.handle));
  }

  lemma PlainScale(q: order, secret: int, n: int, c: Cipher)
    ensures Plain(q, secret, ScaleCipher(q, n, c)) == Scale(q, n, Plain(q, secret, c))
  {
    ScaleScale(q, secret, n, c.handle);
    Commute(secret, n);
    ScaleScale(q, n, secret, c.handle);
    ScaleSub(q, n, c.commitment, Scale(q, secret, c.handle));
  }

  const LOG_BOUND: int := 0x1_0000_0000

  // The 32-bit discrete logarithm of the library; `None` where it throws.
  function Logarithm(p: Point): Option<nat> {
    if p < LOG_BOUND then Some(p) else None
  }

  function Decrypt(q: order, secret: int, c: Cipher): Option<nat> { Logarithm(Plain(q, secret, c)) }
}
