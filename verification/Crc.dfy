/**
 CRC registers. The theorems are proved from eight laws of a register, so that no proof has to look inside a
 machine word; `RowCrc` shows that 32-bit words with the reflected CRC-32 polynomial obey the laws.
 */
module CrcRegister {
  datatype Register<!T(!new)> = Register(
    step: T -> T,             // one bit of the polynomial division
    xor: (T, T) -> T,
    low: T -> T,              // the low byte
    shift: T -> T,            // the other bytes, moved down by one
    up: T -> T,               // moves every byte up by one
    fits: (nat, T) -> bool)   // whether a value occupies at most the given number of low bytes
  {
    function Steps(c: T, n: nat): T {
      if n == 0 then c else step(Steps(c, n - 1))
    }

    /** Folds one byte bit by bit. */
    function FoldByte(c: T, byte: T): T {
      Steps(xor(c, byte), 8)
    }

    function Fold(c: T, row: seq<T>): T {
      if row == [] then c else FoldByte(Fold(c, row[..|row| - 1]), row[|row| - 1])
    }

    /** The table-driven update of section 8 of RFC 1952: entry `n` of the table is `n` after eight steps. */
    function UpdateByte(c: T, byte: T): T {
      xor(Steps(low(xor(c, byte)), 8), shift(c))
    }

    function UpdateCrc(c: T, row: seq<T>): T {
      if row == [] then c else UpdateByte(UpdateCrc(c, row[..|row| - 1]), row[|row| - 1])
    }

    ghost predicate Bytes(row: seq<T>) {
      forall i :: 0 <= i < |row| ==> fits(1, row[i])
    }

    ghost predicate Additive() {
      forall x, y :: step(xor(x, y)) == xor(step(x), step(y))
    }

    ghost predicate Cancels(x: T, y: T, z: T) {
      xor(x, y) == xor(x, z) || xor(y, x) == xor(z, x) ==> y == z
    }

    ghost predicate Reversible() {
      && (forall x, y :: step(x) == step(y) ==> x == y)
      && (forall x, y, z :: Cancels(x, y, z))
    }

    ghost predicate Splits(x: T) {
      exists high :: x == xor(low(x), high) && Steps(high, 8) == shift(x)
    }

    ghost predicate Absorbs(c: T, byte: T) {
      fits(1, byte) ==> shift(xor(c, byte)) == shift(c)
    }

    ghost predicate Tabulated() {
      && (forall x :: Splits(x))
      && (forall c, byte :: Absorbs(c, byte))
    }

    ghost predicate Associates(x: T, y: T, z: T) {
      xor(x, xor(y, z)) == xor(xor(x, y), z)
    }

    ghost predicate Grows(n: nat, byte: T, y: T) {
      n <= 3 && fits(1, byte) && fits(n, y) ==> fits(3, y) && fits(n + 1, xor(byte, up(y)))
    }

    ghost predicate Decodes(b: T, c: T, y: T, z: T) {
      fits(1, b) && fits(1, c) && fits(3, y) && fits(3, z) && xor(b, up(y)) == xor(c, up(z)) ==> b == c && y == z
    }

    ghost predicate Rises(y: T) {
      fits(3, y) ==> Steps(up(y), 8) == y
    }

    ghost predicate Packed() {
      && (forall x, y, z :: Associates(x, y, z))
      && (forall y :: Rises(y))
      && (forall n: nat, byte, y :: Grows(n, byte, y))
      && (forall b, c, y, z :: Decodes(b, c, y, z))
    }
  }

  lemma {:induction false} StepsAdditive<T(!new)>(r: Register<T>, x: T, y: T, n: nat)
    requires r.Additive()
    ensures r.Steps(r.xor(x, y), n) == r.xor(r.Steps(x, n), r.Steps(y, n))
  {
    if n > 0 { StepsAdditive(r, x, y, n - 1); }
  }

  lemma {:induction false} StepsReversible<T(!new)>(r: Register<T>, x: T, y: T, n: nat)
    requires r.Reversible() && r.Steps(x, n) == r.Steps(y, n)
    ensures x == y
  {
    if n > 0 { StepsReversible(r, x, y, n - 1); }
  }

  lemma {:induction false} StepsCompose<T(!new)>(r: Register<T>, c: T, m: nat, n: nat)
    ensures r.Steps(c, m + n) == r.Steps(r.Steps(c, m), n)
  {
    if n > 0 { StepsCompose(r, c, m, n - 1); }
  }

  lemma ByteByTable<T(!new)>(r: Register<T>, c: T, byte: T)
    requires r.Additive() && r.Tabulated() && r.fits(1, byte)
    ensures r.FoldByte(c, byte) == r.UpdateByte(c, byte)
  {
    var x := r.xor(c, byte);
    assert r.Splits(x) && r.Absorbs(c, byte);
    var high :| x == r.xor(r.low(x), high) && r.Steps(high, 8) == r.shift(x);
    StepsAdditive(r, r.low(x), high, 8);
  }

  /** Folding bit by bit and updating by table give the same register. */
  lemma {:induction false} FoldByTable<T(!new)>(r: Register<T>, c: T, row: seq<T>)
    requires r.Additive() && r.Tabulated() && r.Bytes(row)
    ensures r.Fold(c, row) == r.UpdateCrc(c, row)
  {
    if row != [] {
      FoldByTable(r, c, row[..|row| - 1]);
      ByteByTable(r, r.Fold(c, row[..|row| - 1]), row[|row| - 1]);
    }
  }

  lemma {:induction false} FoldConcat<T(!new)>(r: Register<T>, c: T, a: seq<T>, b: seq<T>)
    ensures r.Fold(c, a + b) == r.Fold(r.Fold(c, a), b)
  {
    if b == [] {
      assert a + b == a;
    } else {
      assert (a + b)[..|a + b| - 1] == a + b[..|b| - 1];
      FoldConcat(r, c, a, b[..|b| - 1]);
    }
  }

  /** What a row does to the register can be undone. */
  lemma {:induction false} FoldReversible<T(!new)>(r: Register<T>, c: T, d: T, row: seq<T>)
    requires r.Reversible() && r.Fold(c, row) == r.Fold(d, row)
    ensures c == d
  {
    if row != [] {
      var k := |row| - 1;
      var c', d' := r.Fold(c, row[..k]), r.Fold(d, row[..k]);
      StepsReversible(r, r.xor(c', row[k]), r.xor(d', row[k]), 8);
      assert r.Cancels(row[k], c', d');
      FoldReversible(r, c, d, row[..k]);
    }
  }

  /** A row of at most four bytes as the value it occupies in the register. */
  function Pack<T(!new)>(r: Register<T>, zero: T, row: seq<T>): T {
    if row == [] then zero else r.xor(row[0], r.up(Pack(r, zero, row[1..])))
  }

  lemma {:induction false} PackFits<T(!new)>(r: Register<T>, zero: T, row: seq<T>)
    requires r.Packed() && r.Bytes(row) && |row| <= 4 && r.fits(0, zero)
    ensures r.fits(|row|, Pack(r, zero, row))
  {
    if row != [] {
      PackFits(r, zero, row[1..]);
      assert r.Grows(|row| - 1, row[0], Pack(r, zero, row[1..]));
    }
  }

  lemma {:induction false} PackInjective<T(!new)>(r: Register<T>, zero: T, a: seq<T>, b: seq<T>)
    requires r.Packed() && r.Bytes(a) && r.Bytes(b) && |a| == |b| <= 4 && r.fits(0, zero)
    requires Pack(r, zero, a) == Pack(r, zero, b)
    ensures a == b
  {
    if a != [] {
      PackFits(r, zero, a[1..]);
      PackFits(r, zero, b[1..]);
      var y, z := Pack(r, zero, a[1..]), Pack(r, zero, b[1..]);
      assert r.Grows(|a| - 1, a[0], y) && r.Grows(|a| - 1, b[0], z) && r.Decodes(a[0], b[0], y, z);
      PackInjective(r, zero, a[1..], b[1..]);
      assert a == [a[0]] + a[1..] && b == [b[0]] + b[1..];
    }
  }

  /** Folding at most four bytes is one addition of their packed value, followed by all the steps. */
  lemma {:induction false} FoldPacked<T(!new)>(r: Register<T>, zero: T, c: T, row: seq<T>)
    requires r.Additive() && r.Packed() && r.Bytes(row) && |row| <= 4 && r.fits(0, zero)
    requires forall x :: r.xor(x, zero) == x
    ensures r.Fold(c, row) == r.Steps(r.xor(c, Pack(r, zero, row)), 8 * |row|)
  {
    if row != [] {
      var rest := row[1..];
      var y := Pack(r, zero, rest);
      var c1 := r.FoldByte(c, row[0]);
      PackFits(r, zero, rest);
      assert r.Grows(|rest|, row[0], y) && r.Rises(y);
      FoldPacked(r, zero, c1, rest);
      assert row == [row[0]] + rest;
      FoldConcat(r, c, [row[0]], rest);
      assert r.Fold(c, [row[0]]) == c1;
      StepsAdditive(r, r.xor(c, row[0]), r.up(y), 8);
      assert r.Associates(c, row[0], r.up(y));
      assert r.xor(c1, y) == r.Steps(r.xor(c, Pack(r, zero, row)), 8);
      StepsCompose(r, r.xor(c, Pack(r, zero, row)), 8, 8 * |rest|);
    }
  }

  /** Two different windows of at most four bytes, in the same place of otherwise equal rows, are told apart. */
  lemma WindowDetected<T(!new)>(r: Register<T>, zero: T, c: T, before: seq<T>, a: seq<T>, b: seq<T>, after: seq<T>)
    requires r.Additive() && r.Reversible() && r.Packed() && r.fits(0, zero)
    requires forall x :: r.xor(x, zero) == x
    requires r.Bytes(a) && r.Bytes(b) && |a| == |b| <= 4 && a != b
    ensures r.Fold(c, before + a + after) != r.Fold(c, before + b + after)
  {
    var d := r.Fold(c, before);
    FoldConcat(r, c, before + a, after);
    FoldConcat(r, c, before + b, after);
    FoldConcat(r, c, before, a);
    FoldConcat(r, c, before, b);
    FoldPacked(r, zero, d, a);
    FoldPacked(r, zero, d, b);
    if r.Fold(c, before + a + after) == r.Fold(c, before + b + after) {
      FoldReversible(r, r.Fold(d, a), r.Fold(d, b), after);
      StepsReversible(r, r.xor(d, Pack(r, zero, a)), r.xor(d, Pack(r, zero, b)), 8 * |a|);
      assert r.Cancels(d, Pack(r, zero, a), Pack(r, zero, b));
      PackInjective(r, zero, a, b);
    }
  }

  /** The laws a register must obey, with `zero` as the empty register. */
  ghost predicate Lawful<T(!new)>(r: Register<T>, zero: T) {
    && r.Additive() && r.Reversible() && r.Tabulated() && r.Packed()
    && r.fits(0, zero)
    && (forall x :: r.xor(x, zero) == x)
  }

  lemma SameOutside<T>(x: seq<T>, y: seq<T>, k: nat, e: nat)
    requires |x| == |y| && k <= e <= |x|
    requires forall i :: 0 <= i < |x| && !(k <= i < e) ==> x[i] == y[i]
    ensures x == x[..k] + x[k..e] + x[e..] && y == x[..k] + y[k..e] + x[e..]
  {}

  /** Rows that differ only inside one window of four consecutive bytes leave different registers. */
  lemma BurstChangesRegister<T(!new)>(r: Register<T>, zero: T, c: T, x: seq<T>, y: seq<T>, k: nat)
    requires Lawful(r, zero) && r.Bytes(x) && r.Bytes(y)
    requires |x| == |y| && x != y && k <= |x|
    requires forall i :: 0 <= i < |x| && !(k <= i < k + 4) ==> x[i] == y[i]
    ensures r.UpdateCrc(c, x) != r.UpdateCrc(c, y)
  {
    var e := if k + 4 <= |x| then k + 4 else |x|;
    var before, a, b, after := x[..k], x[k..e], y[k..e], x[e..];
    SameOutside(x, y, k, e);
    WindowDetected(r, zero, c, before, a, b, after);
    FoldByTable(r, c, before + a + after);
    FoldByTable(r, c, before + b + after);
  }
}

/** The row checksum of the framebuffer trace. A 32-bit word is the sequence of its bits, the lowest bit first. */
module RowCrc {
  import opened CrcRegister

  type Word = s: seq<bool> | |s| == 32 witness Zeros(32)

  function Zeros(n: nat): (s: seq<bool>)
    ensures |s| == n && forall i :: 0 <= i < n ==> !s[i]
  {
    if n == 0 then [] else [false] + Zeros(n - 1)
  }

  /** The `width` low bits of `n`. */
  function Bits(n: nat, width: nat): (s: seq<bool>)
    ensures |s| == width
  {
    if width == 0 then [] else [n % 2 == 1] + Bits(n / 2, width - 1)
  }

  const POLYNOMIAL: Word := Bits(0xedb8_8320, 32)
  const ZERO: Word := Zeros(32)
  const ONES: Word := Not(Zeros(32))

  function Xor(a: Word, b: Word): (c: Word)
    ensures forall i :: 0 <= i < 32 ==> c[i] == (a[i] != b[i])
  {
    seq(32, i requires 0 <= i < 32 => a[i] != b[i])
  }

  function And(a: Word, b: Word): Word {
    seq(32, i requires 0 <= i < 32 => a[i] && b[i])
  }

  function Not(a: Word): Word {
    seq(32, i requires 0 <= i < 32 => !a[i])
  }

  /** `a >> n`. */
  function ShiftRight(a: Word, n: nat): Word
    requires n <= 32
  {
    a[n..] + Zeros(n)
  }

  function BitStep(c: Word): Word {
    Xor(ShiftRight(c, 1), if c[0] then POLYNOMIAL else ZERO)
  }

  function Low(c: Word): Word { c[..8] + Zeros(24) }
  function Shift(c: Word): Word { ShiftRight(c, 8) }
  function Up(c: Word): Word { Zeros(8) + c[..24] }
  predicate Fits(n: nat, c: Word) { forall i :: 8 * n <= i < 32 ==> !c[i] }

  const CRC32_REGISTER: Register<Word> := Register(BitStep, Xor, Low, Shift, Up, Fits)

  type Byte = b: nat | b < 0x100

  /** Each byte of a row, widened to a word. */
  function Words(row: seq<Byte>): (w: seq<Word>)
    ensures |w| == |row|
  {
    seq(|row|, i requires 0 <= i < |row| => Bits(row[i], 32))
  }

  /** CRC-32, by the table, as in section 8 of RFC 1952. */
  function Crc32(row: seq<Byte>): Word {
    Xor(CRC32_REGISTER.UpdateCrc(ONES, Words(row)), ONES)
  }

  // ---------- the laws ----------

  lemma SameBits(a: Word, b: Word)
    requires forall i :: 0 <= i < 32 ==> a[i] == b[i]
    ensures a == b
  {}

  /** `n` divided by two, `i` times. */
  function Halved(n: nat, i: nat): nat {
    if i == 0 then n else Halved(n, i - 1) / 2
  }

  lemma {:induction false} HalvedFirst(n: nat, i: nat)
    ensures Halved(n, i + 1) == Halved(n / 2, i)
  {
    if i > 0 { HalvedFirst(n, i - 1); }
  }

  lemma {:induction false} BitAt(n: nat, width: nat, i: nat)
    requires i < width
    ensures Bits(n, width)[i] <==> Halved(n, i) % 2 == 1
  {
    if i > 0 {
      BitAt(n / 2, width - 1, i - 1);
      HalvedFirst(n, i - 1);
    }
  }

  lemma PolynomialHalved(n: nat, i: nat)
    requires n == 0xedb8_8320 && i < 32
    ensures Halved(n, i) % 2 == 1 <==> 31 - i in {26, 23, 22, 16, 12, 11, 10, 8, 7, 5, 4, 2, 1, 0}
  {
    assert Halved(n, 1) == 0x76dc4190; assert Halved(n, 2) == 0x3b6e20c8; assert Halved(n, 3) == 0x1db71064;
    assert Halved(n, 4) == 0xedb8832; assert Halved(n, 5) == 0x76dc419; assert Halved(n, 6) == 0x3b6e20c;
    assert Halved(n, 7) == 0x1db7106; assert Halved(n, 8) == 0xedb883; assert Halved(n, 9) == 0x76dc41;
    assert Halved(n, 10) == 0x3b6e20; assert Halved(n, 11) == 0x1db710; assert Halved(n, 12) == 0xedb88;
    assert Halved(n, 13) == 0x76dc4; assert Halved(n, 14) == 0x3b6e2; assert Halved(n, 15) == 0x1db71;
    assert Halved(n, 16) == 0xedb8; assert Halved(n, 17) == 0x76dc; assert Halved(n, 18) == 0x3b6e;
    assert Halved(n, 19) == 0x1db7; assert Halved(n, 20) == 0xedb; assert Halved(n, 21) == 0x76d;
    assert Halved(n, 22) == 0x3b6; assert Halved(n, 23) == 0x1db; assert Halved(n, 24) == 0xed;
    assert Halved(n, 25) == 0x76; assert Halved(n, 26) == 0x3b; assert Halved(n, 27) == 0x1d;
    assert Halved(n, 28) == 0xe; assert Halved(n, 29) == 0x7; assert Halved(n, 30) == 0x3;
    assert Halved(n, 31) == 0x1;
  }

  /** The exponents of the polynomial of CRC-32, next to 32: bit `i` of the reflected word stands for 31 - i. */
  lemma PolynomialExponents(i: nat)
    requires i < 32
    ensures POLYNOMIAL[i] <==> 31 - i in {26, 23, 22, 16, 12, 11, 10, 8, 7, 5, 4, 2, 1, 0}
  {
    BitAt(0xedb8_8320, 32, i);
    PolynomialHalved(0xedb8_8320, i);
  }

  function Power(n: nat): nat {
    if n == 0 then 1 else 2 * Power(n - 1)
  }

  lemma BitStepLinear(x: Word, y: Word)
    ensures BitStep(Xor(x, y)) == Xor(BitStep(x), BitStep(y))
  {
    SameBits(BitStep(Xor(x, y)), Xor(BitStep(x), BitStep(y)));
  }

  /** Bit by bit, a step shifts and adds the polynomial if the lowest bit was set. */
  lemma BitStepAt(c: Word, i: nat)
    requires i < 32
    ensures BitStep(c)[i] == if c[0] then (i < 31 && c[i + 1]) != POLYNOMIAL[i] else i < 31 && c[i + 1]
  {
    assert ShiftRight(c, 1)[i] == (i < 31 && c[i + 1]);
    assert !ZERO[i];
  }

  /** The top bit of a step tells the lowest bit. */
  lemma BitStepTop(c: Word)
    ensures BitStep(c)[31] == c[0]
  {
    PolynomialExponents(31);
    BitStepAt(c, 31);
  }

  /** The polynomial has its top coefficient set, so a step loses no information. */
  lemma BitStepReversible(x: Word, y: Word)
    requires BitStep(x) == BitStep(y)
    ensures x == y
  {
    BitStepTop(x);
    BitStepTop(y);
    forall i | 0 < i < 32 ensures x[i] == y[i] {
      BitStepAt(x, i - 1);
      BitStepAt(y, i - 1);
    }
    SameBits(x, y);
  }

  lemma XorCancels(x: Word, y: Word, z: Word)
    ensures CRC32_REGISTER.Cancels(x, y, z)
  {
    forall i | 0 <= i < 32
      ensures Xor(x, y)[i] == Xor(x, z)[i] <==> y[i] == z[i]
      ensures Xor(y, x)[i] == Xor(z, x)[i] <==> y[i] == z[i]
    {}
    if Xor(x, y) == Xor(x, z) || Xor(y, x) == Xor(z, x) { SameBits(y, z); }
  }

  lemma ShiftAgain(z: Word, k: nat)
    requires k < 32
    ensures ShiftRight(ShiftRight(z, k), 1) == ShiftRight(z, k + 1)
  {}

  lemma EvenStep(c: Word)
    requires !c[0]
    ensures BitStep(c) == ShiftRight(c, 1)
  {
    SameBits(BitStep(c), ShiftRight(c, 1));
  }

  /** A word with `k` empty low bits is only shifted by `k` steps. */
  lemma {:induction false} ShiftedOut(z: Word, k: nat)
    requires k <= 32 && forall i :: 0 <= i < k ==> !z[i]
    ensures CRC32_REGISTER.Steps(z, k) == ShiftRight(z, k)
  {
    if k > 0 {
      ShiftedOut(z, k - 1);
      ShiftAgain(z, k - 1);
      EvenStep(ShiftRight(z, k - 1));
    }
  }

  lemma WordSplits(x: Word)
    ensures CRC32_REGISTER.Splits(x)
  {
    var high: Word := Zeros(8) + x[8..];
    SameBits(x, Xor(Low(x), high));
    ShiftedOut(high, 8);
    SameBits(ShiftRight(high, 8), Shift(x));
    assert x == CRC32_REGISTER.xor(CRC32_REGISTER.low(x), high);
  }

  lemma WordAbsorbs(c: Word, byte: Word)
    ensures CRC32_REGISTER.Absorbs(c, byte)
  {
    if Fits(1, byte) { SameBits(Shift(Xor(c, byte)), Shift(c)); }
  }

  lemma WordAssociates(x: Word, y: Word, z: Word)
    ensures CRC32_REGISTER.Associates(x, y, z)
  {
    SameBits(Xor(x, Xor(y, z)), Xor(Xor(x, y), z));
  }

  lemma WordRises(y: Word)
    ensures CRC32_REGISTER.Rises(y)
  {
    if Fits(3, y) {
      ShiftedOut(Up(y), 8);
      SameBits(ShiftRight(Up(y), 8), y);
    }
  }

  lemma WordGrows(n: nat, byte: Word, y: Word)
    ensures CRC32_REGISTER.Grows(n, byte, y)
  {
    if n <= 3 && Fits(1, byte) && Fits(n, y) {
      var r := Xor(byte, Up(y));
      forall i | 8 * (n + 1) <= i < 32 ensures !r[i] { assert Up(y)[i] == y[i - 8]; }
      assert Fits(n + 1, r);
    }
  }

  lemma WordDecodes(b: Word, c: Word, y: Word, z: Word)
    ensures CRC32_REGISTER.Decodes(b, c, y, z)
  {
    if Fits(1, b) && Fits(1, c) && Fits(3, y) && Fits(3, z) && Xor(b, Up(y)) == Xor(c, Up(z)) {
      forall i | 0 <= i < 32 ensures b[i] == c[i] {
        if i < 8 { assert Xor(b, Up(y))[i] == b[i] && Xor(c, Up(z))[i] == c[i]; }
      }
      SameBits(b, c);
      forall i | 0 <= i < 32 ensures y[i] == z[i] {
        if i < 24 { assert Xor(b, Up(y))[i + 8] == y[i] && Xor(c, Up(z))[i + 8] == z[i]; }
      }
      SameBits(y, z);
    }
  }

  lemma WordIsLawful()
    ensures Lawful(CRC32_REGISTER, ZERO)
  {
    forall x: Word, y: Word ensures BitStep(Xor(x, y)) == Xor(BitStep(x), BitStep(y)) { BitStepLinear(x, y); }
    assert CRC32_REGISTER.Additive();
    forall x: Word, y: Word | BitStep(x) == BitStep(y) ensures x == y { BitStepReversible(x, y); }
    forall x: Word, y: Word, z: Word { XorCancels(x, y, z); }
    assert CRC32_REGISTER.Reversible();
    forall x: Word { WordSplits(x); }
    forall c: Word, byte: Word { WordAbsorbs(c, byte); }
    assert CRC32_REGISTER.Tabulated();
    forall x: Word, y: Word, z: Word { WordAssociates(x, y, z); }
    forall y: Word { WordRises(y); }
    forall n: nat, byte: Word, y: Word { WordGrows(n, byte, y); }
    forall b: Word, c: Word, y: Word, z: Word { WordDecodes(b, c, y, z); }
    assert CRC32_REGISTER.Packed();
    forall x: Word ensures Xor(x, ZERO) == x { SameBits(Xor(x, ZERO), x); }
  }

  // ---------- the checksum ----------

  lemma {:induction false} BitsAboveAreZero(n: nat, width: nat, k: nat, i: nat)
    requires n < Power(k) && k <= i < width
    ensures !Bits(n, width)[i]
  {
    if i > 0 { BitsAboveAreZero(n / 2, width - 1, if k == 0 then 0 else k - 1, i - 1); }
  }

  lemma WordsFit(row: seq<Byte>)
    ensures CRC32_REGISTER.Bytes(Words(row))
  {
    assert Power(8) == 0x100;
    forall i | 0 <= i < |row| ensures Fits(1, Words(row)[i]) {
      forall j | 8 <= j < 32 ensures !Bits(row[i], 32)[j] { BitsAboveAreZero(row[i], 32, 8, j); }
    }
  }

  lemma {:induction false} BitsInjective(m: nat, n: nat, width: nat)
    requires m < Power(width) && n < Power(width) && Bits(m, width) == Bits(n, width)
    ensures m == n
  {
    if width > 0 {
      assert Bits(m, width)[0] == Bits(n, width)[0];
      assert Bits(m, width)[1..] == Bits(m / 2, width - 1) && Bits(n, width)[1..] == Bits(n / 2, width - 1);
      BitsInjective(m / 2, n / 2, width - 1);
    }
  }

  lemma WordsInjective(x: seq<Byte>, y: seq<Byte>)
    requires Words(x) == Words(y)
    ensures x == y
  {
    assert Power(8) == 0x100;
    assert Power(16) == 0x1_0000;
    assert Power(24) == 0x100_0000;
    assert Power(32) == 0x1_0000_0000;
    assert |x| == |Words(x)| == |Words(y)| == |y|;
    forall i | 0 <= i < |x| ensures x[i] == y[i] {
      assert Words(x)[i] == Words(y)[i];
      BitsInjective(x[i], y[i], 32);
    }
  }

  lemma FoldSnoc(c: Word, row: seq<Byte>, i: nat)
    requires i < |row|
    ensures CRC32_REGISTER.Fold(c, Words(row)[..i + 1])
         == CRC32_REGISTER.FoldByte(CRC32_REGISTER.Fold(c, Words(row)[..i]), Words(row)[i])
  {
    assert Words(row)[..i + 1][..i] == Words(row)[..i];
  }

  /** The mask is all ones exactly when the low bit is set. */
  function Mask(c: Word): Word {
    if c[0] then ONES else ZERO
  }

  lemma MaskedStep(c: Word)
    ensures Xor(ShiftRight(c, 1), And(POLYNOMIAL, Mask(c))) == CRC32_REGISTER.step(c)
  {
    SameBits(And(POLYNOMIAL, Mask(c)), if c[0] then POLYNOMIAL else ZERO);
  }

  lemma Complement(c: Word)
    ensures Not(c) == Xor(c, ONES)
  {
    SameBits(Not(c), Xor(c, ONES));
  }

  lemma FoldIsCrc32(bytes: seq<Byte>)
    ensures Not(CRC32_REGISTER.Fold(ONES, Words(bytes))) == Crc32(bytes)
  {
    WordsFit(bytes);
    WordIsLawful();
    FoldByTable(CRC32_REGISTER, ONES, Words(bytes));
    Complement(CRC32_REGISTER.Fold(ONES, Words(bytes)));
  }

  /** The bitwise checksum of a row is its CRC-32. */
  method RowCrc32(bytes: seq<Byte>) returns (crc: Word)
    ensures crc == Crc32(bytes)
  {
    crc := Not(ZERO);
    for i := 0 to |bytes|
      invariant crc == CRC32_REGISTER.Fold(ONES, Words(bytes)[..i])
    {
      FoldSnoc(ONES, bytes, i);
      crc := Xor(crc, Words(bytes)[i]);
      ghost var entry := crc;
      for k := 0 to 8
        invariant crc == CRC32_REGISTER.Steps(entry, k)
      {
        MaskedStep(crc);
        crc := Xor(ShiftRight(crc, 1), And(POLYNOMIAL, Mask(crc)));
      }
    }
    assert Words(bytes)[..|bytes|] == Words(bytes);
    FoldIsCrc32(bytes);
    crc := Not(crc);
  }

  /** The register starts with all ones, and the checksum is its complement: no bytes at all have the checksum 0. */
  lemma EmptyRow()
    ensures Crc32([]) == ZERO && forall i :: 0 <= i < 32 ==> ONES[i] && !ZERO[i]
  {
    SameBits(Xor(ONES, ONES), ZERO);
  }

  /** Rows that differ only inside one window of four consecutive bytes have different checksums. */
  lemma BurstDetected(x: seq<Byte>, y: seq<Byte>, k: nat)
    requires |x| == |y| && x != y && k <= |x|
    requires forall i :: 0 <= i < |x| && !(k <= i < k + 4) ==> x[i] == y[i]
    ensures Crc32(x) != Crc32(y)
  {
    WordIsLawful();
    WordsFit(x);
    WordsFit(y);
    if Words(x) == Words(y) { WordsInjective(x, y); }
    BurstChangesRegister(CRC32_REGISTER, ZERO, ONES, Words(x), Words(y), k);
    XorCancels(ONES, CRC32_REGISTER.UpdateCrc(ONES, Words(x)), CRC32_REGISTER.UpdateCrc(ONES, Words(y)));
  }
}
