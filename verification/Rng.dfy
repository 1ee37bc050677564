/** The xorshift generator of the benchmark driver (benchmark/basedriver.h), on 64-bit words. */
module Rng {

  const WIDTH: nat := 64

  /** An unsigned long, least significant bit first. */
  type Word = s: seq<bool> | |s| == WIDTH witness seq(WIDTH, i => false)

  datatype Words = Words(x: Word, y: Word, z: Word)

  const SEED_Y: nat := 362436069
  const SEED_Z: nat := 521288629

  /** The state that BDR_RNG_VARS sets up; the first word comes from rand(). */
  function SeedWords(seed: Word): Words {
    Words(seed, Bits(SEED_Y), Bits(SEED_Z))
  }

  // The operators of C on such words.

  function Xor(a: Word, b: Word): Word {
    seq(WIDTH, i requires 0 <= i < WIDTH => a[i] != b[i])
  }

  function ShiftLeft(a: Word, k: nat): Word {
    seq(WIDTH, i requires 0 <= i < WIDTH => k <= i && a[i - k])
  }

  function ShiftRight(a: Word, k: nat): Word {
    seq(WIDTH, i requires 0 <= i < WIDTH => i + k < WIDTH && a[i + k])
  }

  /** The word of a number, which is taken modulo two to the width. */
  function Bits(n: nat): Word {
    Digits(n, WIDTH)
  }

  function Digits(n: nat, width: nat): (s: seq<bool>)
    ensures |s| == width
    ensures width > 0 ==> s[0] == (n % 2 == 1)
  {
    if width == 0 then [] else [n % 2 == 1] + Digits(n / 2, width - 1)
  }

  const NULL: Word := seq(WIDTH, i => false)

  // One shift-and-xor assignment, v ^= v << k or v ^= v >> k.

  function Left(v: Word, k: nat): Word {
    Xor(v, ShiftLeft(v, k))
  }

  function Right(v: Word, k: nat): Word {
    Xor(v, ShiftRight(v, k))
  }

  /** The three shift-and-xor assignments to the first word. */
  function Scramble(x: Word): Word {
    Left(Right(Left(x, 16), 5), 1)
  }

  /** One step of the generator. */
  function Next(w: Words): Words {
    Words(w.y, w.z, Xor(Xor(Scramble(w.x), w.y), w.z))
  }

  // ---------- The same, bit by bit ----------

  /** The number that a word stands for. */
  function NumberOf(s: seq<bool>): nat {
    if s == [] then 0 else (if s[0] then 1 else 0) + 2 * NumberOf(s[1..])
  }

  function PowerOf2(n: nat): nat {
    if n == 0 then 1 else 2 * PowerOf2(n - 1)
  }

  lemma {:induction false} DigitsNumber(n: nat, width: nat)
    requires n < PowerOf2(width)
    ensures NumberOf(Digits(n, width)) == n
  {
    if width > 0 {
      DigitsNumber(n / 2, width - 1);
      assert Digits(n, width)[1..] == Digits(n / 2, width - 1);
    }
  }

  lemma {:induction false} PowersGrow(m: nat, n: nat)
    requires m <= n
    ensures 0 < PowerOf2(m) <= PowerOf2(n)
  {
    if m > 0 {
      PowersGrow(m - 1, n - 1);
    } else if n > 0 {
      PowersGrow(0, n - 1);
    }
  }

  /** The second and the third word start as the numbers that the driver gives them, the first one as it comes. */
  lemma SeedNumbers(seed: Word)
    ensures SeedWords(seed).x == seed
    ensures NumberOf(SeedWords(seed).y) == 362436069 && NumberOf(SeedWords(seed).z) == 521288629
  {
    PowersGrow(30, 64);
    assert PowerOf2(10) == 1024 && PowerOf2(20) == 1024 * 1024 && PowerOf2(30) == 1024 * 1024 * 1024;
    DigitsNumber(362436069, 64);
    DigitsNumber(521288629, 64);
  }

  // A bit of x ^ (x << 16), where positions outside the word have none.
  predicate Tap(x: Word, i: int) {
    0 <= i < 64 && (x[i] != (i >= 16 && x[i - 16]))
  }

  /** Every bit of the new state in terms of the bits of the old one. */
  lemma NextBits(w: Words, i: nat)
    requires i < 64
    ensures Next(w).x == w.y && Next(w).y == w.z
    ensures Next(w).z[i] <==>
            ((((Tap(w.x, i) != Tap(w.x, i + 5)) != (i >= 1 && Tap(w.x, i - 1) != Tap(w.x, i + 4))) != w.y[i]) != w.z[i])
  {
    var a := Left(w.x, 16);
    assert forall j :: 0 <= j < 64 ==> a[j] == Tap(w.x, j);
    var b := Right(a, 5);
    assert forall j :: 0 <= j < 64 ==> b[j] == (Tap(w.x, j) != Tap(w.x, j + 5));
    var c := Left(b, 1);
    assert c[i] == (b[i] != (i >= 1 && b[i - 1]));
  }

  /** From (1, 0, 0) the first output is 0x31803. */
  lemma FirstOutput(one: Word)
    requires forall i :: 0 <= i < 64 ==> (one[i] <==> i == 0)
    ensures forall i :: 0 <= i < 64 ==>
              (Next(Words(one, NULL, NULL)).z[i] <==> i == 0 || i == 1 || i == 11 || i == 12 || i == 16 || i == 17)
  {
    forall i | 0 <= i < 64
      ensures Next(Words(one, NULL, NULL)).z[i] <==> i == 0 || i == 1 || i == 11 || i == 12 || i == 16 || i == 17
    {
      NextBits(Words(one, NULL, NULL), i);
    }
  }

  // ---------- A step backwards ----------

  // A shift-and-xor assignment is undone by repeating it with the shift doubled until it is empty.

  function UndoLeft(v: Word, k: nat): Word
    requires k > 0
    decreases WIDTH - k
  {
    if k >= WIDTH then v else UndoLeft(Left(v, k), 2 * k)
  }

  function UndoRight(v: Word, k: nat): Word
    requires k > 0
    decreases WIDTH - k
  {
    if k >= WIDTH then v else UndoRight(Right(v, k), 2 * k)
  }

  function Unscramble(v: Word): Word {
    UndoLeft(UndoRight(UndoLeft(v, 1), 5), 16)
  }

  function Previous(w: Words): Words {
    Words(Unscramble(Xor(Xor(w.z, w.y), w.x)), w.x, w.y)
  }

  lemma TwiceLeft(v: Word, k: nat)
    ensures Left(Left(v, k), k) == Left(v, 2 * k)
  {
    forall i | 0 <= i < WIDTH
      ensures Left(Left(v, k), k)[i] == Left(v, 2 * k)[i]
    {
    }
  }

  lemma SwapLeft(v: Word, j: nat, k: nat)
    ensures Left(Left(v, j), k) == Left(Left(v, k), j)
  {
    forall i | 0 <= i < WIDTH
      ensures Left(Left(v, j), k)[i] == Left(Left(v, k), j)[i]
    {
    }
  }

  lemma WideLeft(v: Word, k: nat)
    requires k >= WIDTH
    ensures Left(v, k) == v
  {
  }

  lemma TwiceRight(v: Word, k: nat)
    ensures Right(Right(v, k), k) == Right(v, 2 * k)
  {
    forall i | 0 <= i < WIDTH
      ensures Right(Right(v, k), k)[i] == Right(v, 2 * k)[i]
    {
    }
  }

  lemma SwapRight(v: Word, j: nat, k: nat)
    ensures Right(Right(v, j), k) == Right(Right(v, k), j)
  {
    forall i | 0 <= i < WIDTH
      ensures Right(Right(v, j), k)[i] == Right(Right(v, k), j)[i]
    {
    }
  }

  lemma WideRight(v: Word, k: nat)
    requires k >= WIDTH
    ensures Right(v, k) == v
  {
  }

  lemma {:induction false} SwapUndoLeft(v: Word, j: nat, k: nat)
    requires k > 0
    ensures UndoLeft(Left(v, j), k) == Left(UndoLeft(v, k), j)
    decreases WIDTH - k
  {
    if k < WIDTH {
      SwapLeft(v, j, k);
      SwapUndoLeft(Left(v, k), j, 2 * k);
    }
  }

  lemma {:induction false} SwapUndoRight(v: Word, j: nat, k: nat)
    requires k > 0
    ensures UndoRight(Right(v, j), k) == Right(UndoRight(v, k), j)
    decreases WIDTH - k
  {
    if k < WIDTH {
      SwapRight(v, j, k);
      SwapUndoRight(Right(v, k), j, 2 * k);
    }
  }

  /** v ^= v << k can be undone, for every positive shift. */
  lemma {:induction false} LeftInverse(v: Word, k: nat)
    requires k > 0
    ensures UndoLeft(Left(v, k), k) == v && Left(UndoLeft(v, k), k) == v
    decreases WIDTH - k
  {
    if k < WIDTH {
      TwiceLeft(v, k);
      LeftInverse(v, 2 * k);
    } else {
      WideLeft(v, k);
    }
    SwapUndoLeft(v, k, k);
  }

  /** v ^= v >> k can be undone, for every positive shift. */
  lemma {:induction false} RightInverse(v: Word, k: nat)
    requires k > 0
    ensures UndoRight(Right(v, k), k) == v && Right(UndoRight(v, k), k) == v
    decreases WIDTH - k
  {
    if k < WIDTH {
      TwiceRight(v, k);
      RightInverse(v, 2 * k);
    } else {
      WideRight(v, k);
    }
    SwapUndoRight(v, k, k);
  }

  lemma ScrambleInverse(x: Word)
    ensures Unscramble(Scramble(x)) == x && Scramble(Unscramble(x)) == x
  {
    LeftInverse(x, 16);
    RightInverse(Left(x, 16), 5);
    LeftInverse(Right(Left(x, 16), 5), 1);
    LeftInverse(x, 1);
    RightInverse(UndoLeft(x, 1), 5);
    LeftInverse(UndoRight(UndoLeft(x, 1), 5), 16);
  }

  lemma XorCancels(a: Word, b: Word)
    ensures Xor(Xor(a, b), b) == a
  {
  }

  /** One step of the generator is a bijection on the triples of words. */
  lemma NextBijective(w: Words)
    ensures Previous(Next(w)) == w && Next(Previous(w)) == w
  {
    ScrambleInverse(w.x);
    XorCancels(Xor(Scramble(w.x), w.y), w.z);
    XorCancels(Scramble(w.x), w.y);
    ScrambleInverse(Xor(Xor(w.z, w.y), w.x));
    XorCancels(Xor(w.z, w.y), w.x);
    XorCancels(w.z, w.y);
  }

  function Iterate(w: Words, n: nat): Words {
    if n == 0 then w else Next(Iterate(w, n - 1))
  }

  const ZERO := Words(NULL, NULL, NULL)

  /** The all-zero state is a fixed point. */
  lemma NextOfZero()
    ensures Next(ZERO) == ZERO
  {
    assert Left(NULL, 16) == NULL;
    assert Right(NULL, 5) == NULL;
    assert Left(NULL, 1) == NULL;
    assert Xor(NULL, NULL) == NULL;
  }

  /** As a step is a bijection, the all-zero state has no other predecessor. */
  lemma OnlyZeroToZero(w: Words)
    ensures Next(w) == ZERO <==> w == ZERO
  {
    NextOfZero();
    NextBijective(w);
    NextBijective(ZERO);
  }

  /** From a state that is not all zero no run ever gets to the all-zero state, and from it no run leaves. */
  lemma {:induction false} NeverZero(w: Words, n: nat)
    ensures Iterate(w, n) == ZERO <==> w == ZERO
  {
    if n > 0 {
      NeverZero(w, n - 1);
      OnlyZeroToZero(Iterate(w, n - 1));
    }
  }

  /** The driver's seeds: any first word, and two constants, of which one odd number would be enough. */
  lemma SeedsNeverZero(seed: Word, n: nat)
    ensures Iterate(SeedWords(seed), n) != ZERO
  {
    OddSeed(SEED_Y);
    NeverZero(SeedWords(seed), n);
  }

  lemma OddSeed(m: nat)
    requires m % 2 == 1
    ensures Bits(m) != NULL
  {
    assert Bits(m)[0] && !NULL[0];
  }

  /** The variables of BDR_RNG_VARS and the two macros that step them. */
  class Generator {
    var rngx: Word
    var rngy: Word
    var rngz: Word
    var rngt: Word
    var rngz2: Word

    constructor (seed: Word)
      ensures State() == SeedWords(seed)
    {
      rngx, rngy, rngz := seed, Bits(SEED_Y), Bits(SEED_Z);
      rngt, rngz2 := seed, seed;
    }

    function State(): Words
      reads this
    {
      Words(rngx, rngy, rngz)
    }

    /** BDR_RNG_NEXT. */
    method Step()
      modifies this
      ensures State() == Next(old(State()))
      ensures rngz2 == old(rngz2)
    {
      rngx := Xor(rngx, ShiftLeft(rngx, 16));
      rngx := Xor(rngx, ShiftRight(rngx, 5));
      rngx := Xor(rngx, ShiftLeft(rngx, 1));
      rngt := rngx;
      rngx := rngy;
      rngy := rngz;
      rngz := Xor(Xor(rngt, rngx), rngy);
    }

    /** BDR_RNG_NEXTPAIR: two steps; the output of the first is kept. */
    method StepPair()
      modifies this
      ensures State() == Next(Next(old(State())))
      ensures rngz2 == Next(old(State())).z
    {
      rngx := Xor(rngx, ShiftLeft(rngx, 16));
      rngx := Xor(rngx, ShiftRight(rngx, 5));
      rngx := Xor(rngx, ShiftLeft(rngx, 1));
      rngt := rngx;
      rngx := rngy;
      rngy := rngz;
      rngz := Xor(Xor(rngt, rngx), rngy);
      assert State() == Next(old(State()));
      rngz2 := rngz;
      rngx := Xor(rngx, ShiftLeft(rngx, 16));
      rngx := Xor(rngx, ShiftRight(rngx, 5));
      rngx := Xor(rngx, ShiftLeft(rngx, 1));
      rngt := rngx;
      rngx := rngy;
      rngy := rngz;
      rngz := Xor(Xor(rngt, rngx), rngy);
    }
  }
}
