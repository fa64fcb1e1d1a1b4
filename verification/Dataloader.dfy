/** Key selection of the training-data workload: 64-bit words, the splitmix64 finaliser, and the shared sequential counter. */
module Dataloader {
  import Arith

  const TWO64: int := 0x1_0000_0000_0000_0000

  /** A uint64. */
  type Word = x: int | 0 <= x < 0x1_0000_0000_0000_0000

  function Pow2(k: nat): (p: nat)
    ensures p > 0
  {
    if k == 0 then 1 else 2 * Pow2(k - 1)
  }

  // ----- word operations on numbers -----

  /** Bitwise exclusive or, bit by bit from the lowest. */
  function Xor(a: nat, b: nat): nat
    decreases a + b
  {
    if a == 0 && b == 0 then 0 else (a + b) % 2 + 2 * Xor(a / 2, b / 2)
  }

  /** Right shift by k bits. */
  function Shr(a: nat, k: nat): nat
    decreases k
  {
    if k == 0 then a else Shr(a / 2, k - 1)
  }

  lemma {:induction false} XorZero(a: nat)
    ensures Xor(a, 0) == a && Xor(0, a) == a
  {
    if a != 0 {
      XorZero(a / 2);
    }
  }

  lemma {:induction false} XorSelf(a: nat)
    ensures Xor(a, a) == 0
  {
    if a != 0 {
      XorSelf(a / 2);
    }
  }

  lemma {:induction false} XorCommutes(a: nat, b: nat)
    ensures Xor(a, b) == Xor(b, a)
    decreases a + b
  {
    if a != 0 || b != 0 {
      XorCommutes(a / 2, b / 2);
    }
  }

  lemma XorHalf(a: nat, b: nat)
    ensures Xor(a, b) / 2 == Xor(a / 2, b / 2) && Xor(a, b) % 2 == (a + b) % 2
  {
  }

  lemma {:induction false} XorAssociates(a: nat, b: nat, c: nat)
    ensures Xor(Xor(a, b), c) == Xor(a, Xor(b, c))
    decreases a + b + c
  {
    if a != 0 || b != 0 || c != 0 {
      hide Xor;
      var ab, bc := Xor(a, b), Xor(b, c);
      XorHalf(a, b);
      XorHalf(b, c);
      XorHalf(ab, c);
      XorHalf(a, bc);
      XorAssociates(a / 2, b / 2, c / 2);
      BitSum(a, b, c, ab, bc);
    }
  }

  lemma BitSum(a: nat, b: nat, c: nat, ab: nat, bc: nat)
    requires ab % 2 == (a + b) % 2 && bc % 2 == (b + c) % 2
    ensures (ab + c) % 2 == (a + bc) % 2
  {
  }

  lemma {:induction false} XorBound(a: nat, b: nat, k: nat)
    requires a < Pow2(k) && b < Pow2(k)
    ensures Xor(a, b) < Pow2(k)
  {
    if k > 0 {
      XorBound(a / 2, b / 2, k - 1);
    }
  }

  lemma {:induction false} ShrXor(a: nat, b: nat, k: nat)
    ensures Shr(Xor(a, b), k) == Xor(Shr(a, k), Shr(b, k))
    decreases k
  {
    if k > 0 {
      XorHalf(a, b);
      ShrXor(a / 2, b / 2, k - 1);
    }
  }

  /** Xor is the bitwise operation: bit i of the result is the sum of the two bits i. */
  lemma XorBit(a: nat, b: nat, i: nat)
    ensures Shr(Xor(a, b), i) % 2 == (Shr(a, i) % 2 + Shr(b, i) % 2) % 2
  {
    ShrXor(a, b, i);
    XorHalf(Shr(a, i), Shr(b, i));
    hide Xor, Shr;
    ParityOfSum(Shr(a, i), Shr(b, i));
  }

  lemma ParityOfSum(a: nat, b: nat)
    ensures (a + b) % 2 == (a % 2 + b % 2) % 2
  {
  }

  lemma {:induction false} ShrShr(a: nat, j: nat, k: nat)
    ensures Shr(Shr(a, j), k) == Shr(a, j + k)
    decreases j
  {
    if j > 0 {
      ShrShr(a / 2, j - 1, k);
    }
  }

  /** Bit i of a number. */
  function Bit(a: nat, i: nat): nat {
    a / Pow2(i) % 2
  }

  lemma {:induction false} ShrIs(a: nat, k: nat)
    ensures Shr(a, k) == a / Pow2(k)
    decreases k
  {
    if k > 0 {
      ShrIs(a / 2, k - 1);
      HalfThenDivide(a, Pow2(k - 1));
    }
  }

  lemma HalfThenDivide(a: nat, p: nat)
    requires p > 0
    ensures a / 2 / p == a / (2 * p)
  {
    var q, r := a / 2 / p, a / 2 % p;
    assert a == q * (2 * p) + (2 * r + a % 2);
    Arith.DivUnique(a, 2 * p, q, 2 * r + a % 2);
  }

  lemma {:induction false} ShrGone(a: nat, k: nat)
    requires a < Pow2(k)
    ensures Shr(a, k) == 0
    decreases k
  {
    if k > 0 {
      ShrGone(a / 2, k - 1);
    }
  }

  lemma {:induction false} ShrAtMost(a: nat, k: nat)
    ensures Shr(a, k) <= a
    decreases k
  {
    if k > 0 {
      ShrAtMost(a / 2, k - 1);
    }
  }

  lemma {:induction false} Pow2Monotone(j: nat, k: nat)
    requires j <= k
    ensures Pow2(j) <= Pow2(k)
    decreases k - j
  {
    if j < k {
      Pow2Monotone(j + 1, k);
    }
  }

  lemma {:induction false} Pow2Sum(j: nat, k: nat)
    ensures Pow2(j + k) == Pow2(j) * Pow2(k)
    decreases j
  {
    if j > 0 {
      Pow2Sum(j - 1, k);
      Arith.TimesAssociates(2, Pow2(j - 1), Pow2(k));
    }
  }

  lemma Pow2Of2()
    ensures Pow2(2) == 4
  {
  }

  lemma Pow2Of64()
    ensures Pow2(64) == TWO64
  {
    hide Pow2;
    Pow2Of2();
    Pow2Sum(2, 2);
    Pow2Sum(4, 4);
    Pow2Sum(8, 8);
    Pow2Sum(16, 16);
    Pow2Sum(32, 32);
  }

  // ----- x ^= x >> k and its inverse -----

  function XorShift(x: Word, k: nat): Word {
    Pow2Of64();
    ShrAtMost(x, k);
    XorBound(x, Shr(x, k), 64);
    Xor(x, Shr(x, k))
  }

  /** Bit i of x ^ (x >> k) is bit i of x exclusive-or bit i + k of x. */
  lemma XorShiftBit(x: Word, k: nat, i: nat)
    ensures Bit(XorShift(x, k), i) == (Bit(x, i) + Bit(x, i + k)) % 2
  {
    XorBit(x, Shr(x, k), i);
    ShrShr(x, k, i);
    ShrIs(XorShift(x, k), i);
    ShrIs(x, i);
    ShrIs(x, i + k);
  }

  /** Undoes an xor-shift by k when three shifts clear a word. */
  function UnXorShift(y: Word, k: nat): Word {
    Pow2Of64();
    ShrAtMost(y, k);
    ShrAtMost(y, 2 * k);
    XorBound(y, Shr(y, k), 64);
    XorBound(Xor(y, Shr(y, k)), Shr(y, 2 * k), 64);
    Xor(Xor(y, Shr(y, k)), Shr(y, 2 * k))
  }

  /** (a ^ b) ^ (b ^ c) == a ^ c */
  lemma XorCancels(a: nat, b: nat, c: nat)
    ensures Xor(Xor(a, b), Xor(b, c)) == Xor(a, c)
  {
    XorAssociates(a, b, Xor(b, c));
    XorAssociates(b, b, c);
    XorSelf(b);
    XorZero(c);
  }

  lemma ThreeShiftsClear(x: Word, k: nat)
    requires 3 * k >= 64
    ensures Shr(x, 3 * k) == 0
  {
    Pow2Of64();
    Pow2Monotone(64, 3 * k);
    ShrGone(x, 3 * k);
  }

  lemma UnXorShiftXorShift(x: Word, k: nat)
    requires 3 * k >= 64
    ensures UnXorShift(XorShift(x, k), k) == x
  {
    var x1, x2 := Shr(x, k), Shr(x, 2 * k);
    ShrXor(x, x1, k);
    ShrXor(x, x1, 2 * k);
    ShrShr(x, k, k);
    ShrShr(x, k, 2 * k);
    ThreeShiftsClear(x, k);
    XorZero(x2);
    XorCancels(x, x1, x2);
    XorAssociates(x, x2, x2);
    XorSelf(x2);
    XorZero(x);
  }

  lemma XorShiftUnXorShift(y: Word, k: nat)
    requires 3 * k >= 64
    ensures XorShift(UnXorShift(y, k), k) == y
  {
    var y1, y2 := Shr(y, k), Shr(y, 2 * k);
    ShrXor(Xor(y, y1), y2, k);
    ShrXor(y, y1, k);
    ShrShr(y, k, k);
    ShrShr(y, 2 * k, k);
    ThreeShiftsClear(y, k);
    XorZero(Xor(y1, y2));
    XorAssociates(y, y1, y2);
    XorAssociates(y, Xor(y1, y2), Xor(y1, y2));
    XorSelf(Xor(y1, y2));
    XorZero(y);
  }

  // ----- multiplication by an odd constant and its inverse -----

  function MulWord(x: Word, c: Word): Word {
    x * c % TWO64
  }

  lemma MulWordInverse(x: Word, c: Word, inv: Word)
    requires c * inv % TWO64 == 1
    ensures MulWord(MulWord(x, c), inv) == x
  {
    var q, t := x * c / TWO64, c * inv / TWO64;
    var r := MulWord(x, c);
    assert r == x * c - q * TWO64;
    assert c * inv == t * TWO64 + 1;
    Expand(x, c, inv, q, t);
    hide MulWord;
    Arith.DivUnique(r * inv, TWO64, x * t - q * inv, x);
  }

  lemma Expand(x: int, c: int, inv: int, q: int, t: int)
    requires c * inv == t * TWO64 + 1
    ensures (x * c - q * TWO64) * inv == (x * t - q * inv) * TWO64 + x
  {
    Arith.TimesAssociates(x, c, inv);
  }

  // ----- mix64 -----

  const MUL1: Word := 0xbf58476d1ce4e5b9
  const MUL2: Word := 0x94d049bb133111eb
  const INV1: Word := 0x96de1b173f119089
  const INV2: Word := 0x319642b2d24d8ec3

  function Mix64(x: Word): Word {
    XorShift(MulWord(XorShift(MulWord(XorShift(x, 30), MUL1), 27), MUL2), 31)
  }

  function Unmix64(y: Word): Word {
    UnXorShift(MulWord(UnXorShift(MulWord(UnXorShift(y, 31), INV2), 27), INV1), 30)
  }

  /** mix64 is a bijection on 64-bit words: Unmix64 undoes it on both sides. */
  lemma Mix64Bijective(x: Word)
    ensures Unmix64(Mix64(x)) == x
    ensures Mix64(Unmix64(x)) == x
  {
    hide XorShift, UnXorShift, MulWord;
    var a := XorShift(x, 30);
    var b := MulWord(a, MUL1);
    var c := XorShift(b, 27);
    var d := MulWord(c, MUL2);
    UnXorShiftXorShift(d, 31);
    MulWordInverse(c, MUL2, INV2);
    UnXorShiftXorShift(b, 27);
    MulWordInverse(a, MUL1, INV1);
    UnXorShiftXorShift(x, 30);
    var e := UnXorShift(x, 31);
    var f := MulWord(e, INV2);
    var g := UnXorShift(f, 27);
    var h := MulWord(g, INV1);
    XorShiftUnXorShift(h, 30);
    MulWordInverse(g, INV1, MUL1);
    XorShiftUnXorShift(f, 27);
    MulWordInverse(e, INV2, MUL2);
    XorShiftUnXorShift(x, 31);
  }

  /** y is x ^ (x >> k), bit by bit. */
  ghost predicate IsXorShift(y: Word, x: Word, k: nat) {
    forall i: nat :: Bit(y, i) == (Bit(x, i) + Bit(x, i + k)) % 2
  }

  lemma XorShiftIs(x: Word, k: nat)
    ensures IsXorShift(XorShift(x, k), x, k)
  {
    forall i: nat ensures Bit(XorShift(x, k), i) == (Bit(x, i) + Bit(x, i + k)) % 2 {
      XorShiftBit(x, k, i);
    }
  }

  /** The word mix64 computes, step by step: shift by 30, multiply, shift by 27, multiply, shift by 31. */
  lemma Mix64Steps(x: Word) returns (a: Word, b: Word, c: Word, d: Word)
    ensures IsXorShift(a, x, 30)
    ensures b == a * 0xbf58476d1ce4e5b9 % 0x1_0000_0000_0000_0000
    ensures IsXorShift(c, b, 27)
    ensures d == c * 0x94d049bb133111eb % 0x1_0000_0000_0000_0000
    ensures IsXorShift(Mix64(x), d, 31)
  {
    a := XorShift(x, 30);
    b := MulWord(a, MUL1);
    c := XorShift(b, 27);
    d := MulWord(c, MUL2);
    hide XorShift, IsXorShift;
    XorShiftIs(x, 30);
    XorShiftIs(b, 27);
    XorShiftIs(d, 31);
  }

  /** Its bits determine a word, so the steps determine each word from the one before. */
  lemma XorShiftUnique(y: Word, y': Word, x: Word, k: nat)
    requires IsXorShift(y, x, k) && IsXorShift(y', x, k)
    ensures y == y'
  {
    Pow2Of64();
    forall i: nat ensures Bit(y, i) == Bit(y', i) {
      assert Bit(y, i) == (Bit(x, i) + Bit(x, i + k)) % 2 == Bit(y', i);
    }
    BitsDetermine(y, y', 64);
  }

  lemma {:induction false} BitsDetermine(a: nat, b: nat, n: nat)
    requires a < Pow2(n) && b < Pow2(n) && forall i: nat :: Bit(a, i) == Bit(b, i)
    ensures a == b
  {
    if n > 0 {
      forall i: nat ensures Bit(a / 2, i) == Bit(b / 2, i) {
        ShrIs(a, i);
        HalfThenDivide(a, Pow2(i));
        HalfThenDivide(b, Pow2(i));
        assert Bit(a, i + 1) == Bit(b, i + 1);
      }
      assert Bit(a, 0) == a % 2 && Bit(b, 0) == b % 2;
      BitsDetermine(a / 2, b / 2, n - 1);
    }
  }

  // ----- the shuffled pattern -----

  function AddWord(x: Word, y: Word): Word {
    (x + y) % TWO64
  }

  const GAMMA: Word := 0x9E3779B97F4A7C15

  /** The per-worker seed. */
  function Seed(id: Word): Word {
    AddWord(MulWord(id, GAMMA), 1)
  }

  const GAMMA_INV: Word := 0xf1de83e19937733d

  /** Distinct workers get distinct seeds: the seed determines the worker id. */
  lemma SeedsDistinct(id: Word, id': Word)
    ensures Seed(id) == Seed(id') <==> id == id'
  {
    if Seed(id) == Seed(id') {
      SeedDeterminesId(id);
      SeedDeterminesId(id');
    }
  }

  lemma SeedDeterminesId(id: Word)
    ensures MulWord(AddWord(Seed(id), TWO64 - 1), GAMMA_INV) == id
  {
    hide AddWord, MulWord;
    OneBack(MulWord(id, GAMMA));
    GammaInverse();
    MulWordInverse(id, GAMMA, GAMMA_INV);
  }

  lemma OneBack(g: Word)
    ensures AddWord(AddWord(g, 1), TWO64 - 1) == g
  {
    if g + 1 < TWO64 {
      Arith.DivUnique(g + 1, TWO64, 0, g + 1);
      Arith.DivUnique(g + TWO64, TWO64, 1, g);
    } else {
      Arith.DivUnique(g + 1, TWO64, 1, 0);
      Arith.DivUnique(TWO64 - 1, TWO64, 0, TWO64 - 1);
    }
  }

  lemma GammaInverse()
    ensures GAMMA * GAMMA_INV % TWO64 == 1
  {
  }

  /** The index the shuffled pattern picks among n keys. */
  function ShuffledIndex(seed: Word, counter: Word, n: nat): (i: nat)
    requires n > 0
    ensures i < n
  {
    Mix64(AddWord(seed, counter)) % n
  }

  /** The index worker id picks at a counter: the finaliser of id * 0x9e3779b97f4a7c15 + 1 + counter, modulo the number of keys. */
  lemma WorkerPick(id: Word, counter: Word, n: nat)
    requires n > 0
    ensures ShuffledIndex(Seed(id), counter, n)
         == Mix64((id * 0x9E3779B97F4A7C15 + 1 + counter) % 0x1_0000_0000_0000_0000) % n
  {
    hide Mix64;
    var product := id * 0x9E3779B97F4A7C15;
    var seed := product % TWO64 + 1;
    Arith.ModPlusMultiple(product % TWO64 + 1, TWO64, product / TWO64);
    Arith.ModPlusMultiple(product % TWO64 + 1 + counter, TWO64, product / TWO64);
    Arith.ModPlusMultiple(seed % TWO64 + counter, TWO64, seed / TWO64);
  }

  /** Two picks hash alike exactly when seed + counter agree modulo 2^64. */
  lemma SameHash(seed: Word, counter: Word, seed': Word, counter': Word)
    ensures Mix64(AddWord(seed, counter)) == Mix64(AddWord(seed', counter'))
       <==> (seed + counter) % TWO64 == (seed' + counter') % TWO64
  {
    Mix64Bijective(AddWord(seed, counter));
    Mix64Bijective(AddWord(seed', counter'));
  }

  /** How many of the numbers below m leave remainder k. */
  function Share(m: nat, n: nat, k: nat): nat
    requires n > 0
  {
    m / n + (if k < m % n then 1 else 0)
  }

  predicate Leaves(y: int, n: nat, k: nat)
    requires n > 0
  {
    y % n == k
  }

  function Residues(m: nat, n: nat, k: nat): (ys: set<int>)
    requires n > 0
    ensures forall y :: y in ys ==> 0 <= y < m
  {
    if m == 0 then {} else Residues(m - 1, n, k) + if Leaves(m - 1, n, k) then {m - 1} else {}
  }

  lemma {:induction false} ResiduesAre(m: nat, n: nat, k: nat, y: int)
    requires n > 0
    ensures y in Residues(m, n, k) <==> 0 <= y < m && y % n == k
  {
    if m > 0 {
      ResiduesAre(m - 1, n, k, y);
    }
  }

  lemma {:induction false} ResidueCount(m: nat, n: nat, k: nat)
    requires k < n
    ensures |Residues(m, n, k)| == Share(m, n, k)
  {
    hide Share, Leaves;
    if m == 0 {
      ShareZero(n, k);
    } else {
      ResidueCount(m - 1, n, k);
      ShareStep(m - 1, n, k);
    }
  }

  lemma ShareZero(n: nat, k: nat)
    requires n > 0
    ensures Share(0, n, k) == 0
  {
    Arith.DivUnique(0, n, 0, 0);
  }

  lemma ShareStep(m: nat, n: nat, k: nat)
    requires k < n
    ensures Share(m + 1, n, k) == Share(m, n, k) + if Leaves(m, n, k) then 1 else 0
  {
    Arith.DivStep(m, n);
  }

  lemma Member<T>(a: set<T>) returns (x: T)
    requires |a| != 0
    ensures x in a
  {
    x :| x in a;
  }

  lemma {:induction false} InjectionSize(a: set<int>, b: set<int>, f: int -> int)
    requires forall x :: x in a ==> f(x) in b
    requires forall x, y :: x in a && y in a && f(x) == f(y) ==> x == y
    ensures |a| <= |b|
  {
    if |a| != 0 {
      var x := Member(a);
      InjectionSize(a - {x}, b - {f(x)}, f);
    }
  }

  function Pick(seed: Word): int -> int {
    c => if 0 <= c < TWO64 then Mix64(AddWord(seed, c)) else c
  }

  function Unpick(seed: Word): int -> int {
    y => if 0 <= y < TWO64 then (Unmix64(y) - seed) % TWO64 else y
  }

  lemma PickBijective(seed: Word, x: Word)
    ensures 0 <= Pick(seed)(x) < TWO64 && Unpick(seed)(Pick(seed)(x)) == x
    ensures 0 <= Unpick(seed)(x) < TWO64 && Pick(seed)(Unpick(seed)(x)) == x
  {
    Mix64Bijective(AddWord(seed, x));
    Mix64Bijective(x);
    hide Mix64, Unmix64;
    SubAdd(seed, x);
    SubAdd(seed, Unmix64(x));
  }

  lemma SubAdd(seed: Word, x: Word)
    ensures ((seed + x) % TWO64 - seed) % TWO64 == x
    ensures (seed + (x - seed) % TWO64) % TWO64 == x
  {
    Arith.DivUnique(x, TWO64, 0, x);
    if seed + x >= TWO64 {
      Arith.DivUnique(seed + x, TWO64, 1, seed + x - TWO64);
      Arith.DivUnique(x - TWO64, TWO64, -1, x);
    } else {
      Arith.DivUnique(seed + x, TWO64, 0, seed + x);
    }
    if x < seed {
      Arith.DivUnique(x - seed, TWO64, -1, x - seed + TWO64);
      Arith.DivUnique(x + TWO64, TWO64, 1, x);
    } else {
      Arith.DivUnique(x - seed, TWO64, 0, x - seed);
    }
  }

  lemma BijectionSize(a: set<int>, b: set<int>, f: int -> int, g: int -> int)
    requires forall x :: x in a ==> f(x) in b && g(f(x)) == x
    requires forall y :: y in b ==> g(y) in a && f(g(y)) == y
    ensures |a| == |b|
  {
    InjectionSize(a, b, f);
    InjectionSize(b, a, g);
  }

  /** The counters whose pick leaves remainder k. */
  function Picks(seed: Word, n: nat, k: nat): set<int>
    requires n > 0
  {
    set c: int | 0 <= c < TWO64 && Pick(seed)(c) % n == k
  }

  lemma PickCount(seed: Word, n: nat, k: nat)
    requires k < n
    ensures |Picks(seed, n, k)| == Share(TWO64, n, k)
  {
    var picks, values := Picks(seed, n, k), Residues(TWO64, n, k);
    ResidueCount(TWO64, n, k);
    hide Residues, Share;
    forall c | c in picks ensures Pick(seed)(c) in values && Unpick(seed)(Pick(seed)(c)) == c {
      PickBijective(seed, c);
      hide Pick, Unpick;
      ResiduesAre(TWO64, n, k, Pick(seed)(c));
    }
    forall y | y in values ensures Unpick(seed)(y) in picks && Pick(seed)(Unpick(seed)(y)) == y {
      PickBijective(seed, y);
      hide Pick, Unpick;
      ResiduesAre(TWO64, n, k, y);
    }
    hide Picks, Pick, Unpick;
    BijectionSize(picks, values, Pick(seed), Unpick(seed));
  }

  /** Over any 2^64 consecutive counters, whatever the seed, the shuffled pattern picks each of n keys
      either floor(2^64 / n) or ceil(2^64 / n) times. */
  lemma ShuffledFair(seed: Word, start: Word, n: nat, k: nat)
    requires k < n
    ensures |set t: Word | ShuffledIndex(seed, AddWord(start, t), n) == k| == Share(TWO64, n, k)
  {
    var base := AddWord(seed, start);
    forall t: Word ensures ShuffledIndex(seed, AddWord(start, t), n) == Pick(base)(t) % n {
      AddWordAssociates(seed, start, t);
      hide Mix64;
    }
    hide ShuffledIndex, Pick, Share, AddWord;
    PickCount(base, n, k);
    assert (set t: Word | ShuffledIndex(seed, AddWord(start, t), n) == k) == Picks(base, n, k);
  }

  lemma AddWordAssociates(x: Word, y: Word, z: Word)
    ensures AddWord(x, AddWord(y, z)) == AddWord(AddWord(x, y), z)
  {
    Arith.ModPlusMultiple(x + (y + z) % TWO64, TWO64, (y + z) / TWO64);
    Arith.ModPlusMultiple((x + y) % TWO64 + z, TWO64, (x + y) / TWO64);
  }

  // ----- the sequential pattern -----

  /** The dataset and the counter its workers share. */
  class Loader {
    const keys: seq<string>
    var picked: nat

    constructor (keys: seq<string>)
      ensures this.keys == keys && picked == 0
    {
      this.keys := keys;
      picked := 0;
    }

    /** One atomic pick.  The counter is an int64, so the pattern is defined for the first 2^63 - 1 picks. */
    method NextSequential() returns (i: nat)
      requires keys != [] && picked < 0x7FFF_FFFF_FFFF_FFFF
      modifies this`picked
      ensures picked == old(picked) + 1
      ensures i == old(picked) % |keys|
    {
      picked := picked + 1;
      i := (picked - 1) % |keys|;
    }
  }

  /** Counting from c, pick t falls on key k exactly when t falls on key k - c. */
  lemma Shifted(c: nat, t: nat, n: nat, k: nat)
    requires k < n
    ensures (c + t) % n == k <==> t % n == (k - c) % n
  {
    var r := (k - c) % n;
    var q := (k - c) / n;
    assert k - c == q * n + r;
    if t % n == r {
      var u := t / n;
      assert c + t == (u - q) * n + k by {
        assert (u - q) * n == u * n - q * n;
      }
      Arith.DivUnique(c + t, n, u - q, k);
    }
    if (c + t) % n == k {
      var u := (c + t) / n;
      assert t == (u + q) * n + r by {
        assert (u + q) * n == u * n + q * n;
      }
      Arith.DivUnique(t, n, u + q, r);
    }
  }

  ghost function TimesPicked(log: seq<(nat, nat)>, k: nat): nat {
    |set t | 0 <= t < |log| && log[t].1 == k|
  }

  /** Any number of workers pick in any order, from wherever earlier picks left the counter: schedule[t] is the worker
      that makes pick t.  Of these m picks every key has got floor(m / n) or ceil(m / n). */
  method PickAll(l: Loader, schedule: seq<nat>) returns (log: seq<(nat, nat)>)
    requires l.keys != [] && l.picked + |schedule| < 0x8000_0000_0000_0000
    modifies l`picked
    ensures l.picked == old(l.picked) + |schedule|
    ensures |log| == |schedule| && forall t :: 0 <= t < |log| ==> log[t].0 == schedule[t] && log[t].1 < |l.keys|
    ensures forall k: nat :: k < |l.keys| ==>
              TimesPicked(log, k) == Share(|schedule|, |l.keys|, (k - old(l.picked)) % |l.keys|)
  {
    log := [];
    ghost var start := l.picked;
    for t := 0 to |schedule|
      invariant l.picked == start + t && t == |log|
      invariant forall u :: 0 <= u < t ==> log[u] == (schedule[u], (start + u) % |l.keys|)
    {
      var i := l.NextSequential();
      log := log + [(schedule[t], i)];
    }
    forall k: nat | k < |l.keys|
      ensures TimesPicked(log, k) == Share(|schedule|, |l.keys|, (k - start) % |l.keys|)
    {
      CountPicks(log, start, |l.keys|, k);
    }
  }

  lemma CountPicks(log: seq<(nat, nat)>, start: nat, n: nat, k: nat)
    requires k < n && forall u :: 0 <= u < |log| ==> log[u].1 == (start + u) % n
    ensures TimesPicked(log, k) == Share(|log|, n, (k - start) % n)
  {
    var r := (k - start) % n;
    ResidueCount(|log|, n, r);
    forall t ensures t in Residues(|log|, n, r) <==> 0 <= t < |log| && log[t].1 == k {
      ResiduesAre(|log|, n, r, t);
      if 0 <= t < |log| {
        Shifted(start, t, n, k);
      }
    }
    assert (set t | 0 <= t < |log| && log[t].1 == k) == Residues(|log|, n, r);
  }
}
