/** IPv4 addresses as four bytes and as 32-bit words, and the usable range of a subnet. */
module Ipv4 {
  import opened BitWords

  type Byte = b: nat | b < 0x100
  type Word = w: nat | w < 0x1_0000_0000

  datatype Quad = Quad(b0: Byte, b1: Byte, b2: Byte, b3: Byte)

  /** An address, a mask, and the number of leading ones the mask has. */
  datatype Subnet = Subnet(ip: Quad, mask: Quad, ones: nat)

  function ToWord(q: Quad): nat {
    Or(Or(Or(Shl(q.b0, 24, 32), Shl(q.b1, 16, 32)), Shl(q.b2, 8, 32)), q.b3)
  }

  function ByteOf(n: nat): Byte {
    n % 0x100
  }

  function FromWord(n: Word): Quad {
    Quad(
      ByteOf(Shr(And(n, 0xFF00_0000), 24)),
      ByteOf(Shr(And(n, 0x00FF_0000), 16)),
      ByteOf(Shr(And(n, 0x0000_FF00), 8)),
      ByteOf(And(n, 0x0000_00FF)))
  }

  function Number(q: Quad): (n: Word)
  {
    q.b0 * 0x100_0000 + q.b1 * 0x1_0000 + q.b2 * 0x100 + q.b3
  }

  /** A byte shifted up inside the word. */
  lemma ShlByte(b: Byte, k: nat, p: nat)
    requires p == Pow2(k) && p <= 0x100_0000
    ensures Shl(b, k, 32) == b * p
  {
    assert 0 <= b * p <= 0xFF * 0x100_0000;
    LowIsAll(b * p);
  }

  lemma LowIsAll(x: Word)
    ensures Low(x, 32) == x
  {
    Pow2Values();
    LowHighArith(x, 32);
  }

  lemma JoinBelow(high: nat, low: nat, m: nat, k: nat, p: nat)
    requires p == Pow2(k) && high == p * m && low < p
    ensures Or(high, low) == high + low
  {
    OrSym(high, low);
    OrDisjoint(low, m, k);
  }

  lemma Powers()
    ensures Pow2(8) == 0x100 && Pow2(16) == 0x1_0000 && Pow2(24) == 0x100_0000
  {
    Pow2Values();
  }

  /** The shifted bytes joined are the number the bytes write in base 256. */
  lemma ToWordIs(q: Quad)
    ensures ToWord(q) == Number(q)
  {
    Powers();
    ShlByte(q.b0, 24, 0x100_0000);
    ShlByte(q.b1, 16, 0x1_0000);
    ShlByte(q.b2, 8, 0x100);
    JoinBytes(q, Shl(q.b0, 24, 32), Shl(q.b1, 16, 32), Shl(q.b2, 8, 32));
  }

  lemma Join24(high: nat, low: nat, m: nat)
    requires high == 0x100_0000 * m && low < 0x100_0000
    ensures Or(high, low) == high + low
  {
    Powers();
    JoinBelow(high, low, m, 24, 0x100_0000);
  }

  lemma Join16(high: nat, low: nat, m: nat)
    requires high == 0x1_0000 * m && low < 0x1_0000
    ensures Or(high, low) == high + low
  {
    Powers();
    JoinBelow(high, low, m, 16, 0x1_0000);
  }

  lemma Join8(high: nat, low: nat, m: nat)
    requires high == 0x100 * m && low < 0x100
    ensures Or(high, low) == high + low
  {
    Powers();
    JoinBelow(high, low, m, 8, 0x100);
  }

  lemma JoinBytes(q: Quad, a: nat, b: nat, c: nat)
    requires a == q.b0 * 0x100_0000 && b == q.b1 * 0x1_0000 && c == q.b2 * 0x100
    ensures Or(Or(Or(a, b), c), q.b3) == a + b + c + q.b3
  {
    var x := a + b + c;
    assert Or(Or(a, b), c) == x by { JoinTwo(q, a, b, c); }
    assert Or(x, q.b3) == x + q.b3 by { Join8(x, q.b3, q.b0 * 0x1_0000 + q.b1 * 0x100 + q.b2); }
  }

  lemma JoinTwo(q: Quad, a: nat, b: nat, c: nat)
    requires a == q.b0 * 0x100_0000 && b == q.b1 * 0x1_0000 && c == q.b2 * 0x100
    ensures Or(Or(a, b), c) == a + b + c
  {
    var x := a + b;
    assert Or(a, b) == x by { Join24(a, b, q.b0); }
    assert Or(x, c) == x + c by { Join16(x, c, q.b0 * 0x100 + q.b1); }
  }

  /** A masked and shifted byte of a word. */
  lemma MaskedByte(n: nat, k: nat, p: nat, mask: nat)
    requires p == Pow2(k) && mask == p * 0xFF
    ensures Shr(And(n, mask), k) == ByteOf(Shr(n, k))
  {
    MaskShift(n, 0xFF, k);
    LowByte(Shr(n, k));
  }

  lemma ShrWord(n: nat)
    ensures Shr(n, 24) == n / 0x100_0000 && Shr(n, 16) == n / 0x1_0000 && Shr(n, 8) == n / 0x100
  {
    Powers();
    LowHighArith(n, 24);
    LowHighArith(n, 16);
    LowHighArith(n, 8);
  }

  lemma LowByte(n: nat)
    ensures And(n, 0xFF) == ByteOf(n)
  {
    Powers();
    AndLowMask(n, 8);
  }

  lemma FromWordIs(n: Word)
    ensures FromWord(n) == Digits(n)
  {
    Powers();
    MaskedByte(n, 24, 0x100_0000, 0xFF00_0000);
    MaskedByte(n, 16, 0x1_0000, 0x00FF_0000);
    MaskedByte(n, 8, 0x100, 0x0000_FF00);
    LowByte(n);
    ShrWord(n);
    ByteTwice(n / 0x100_0000);
    ByteTwice(n / 0x1_0000);
    ByteTwice(n / 0x100);
    ByteTwice(n);
  }

  lemma ByteTwice(n: nat)
    ensures ByteOf(ByteOf(n)) == ByteOf(n)
  {
  }

  /** The base 256 digits of a word. */
  function Digits(n: Word): Quad {
    Quad(ByteOf(n / 0x100_0000), ByteOf(n / 0x1_0000), ByteOf(n / 0x100), ByteOf(n))
  }

  lemma DigitsNumber(n: Word)
    ensures Number(Digits(n)) == n
  {
    var a, b, c := n / 0x100, n / 0x1_0000, n / 0x100_0000;
    assert a / 0x100 == b && b / 0x100 == c && c < 0x100;
    assert n == a * 0x100 + ByteOf(n) && a == b * 0x100 + ByteOf(a) && b == c * 0x100 + ByteOf(b);
  }

  lemma NumberDigits(q: Quad)
    ensures Digits(Number(q)) == q
  {
    var n := Number(q);
    DigitIs(n, 0x100_0000, 0, q.b0, q.b1 * 0x1_0000 + q.b2 * 0x100 + q.b3);
    DigitIs(n, 0x1_0000, q.b0, q.b1, q.b2 * 0x100 + q.b3);
    DigitIs(n, 0x100, q.b0 * 0x100 + q.b1, q.b2, q.b3);
    DigitIs(n, 1, q.b0 * 0x1_0000 + q.b1 * 0x100 + q.b2, q.b3, 0);
  }

  /** The digit b of n at place d, with the digits above and below it. */
  lemma DigitIs(n: nat, d: nat, above: nat, b: nat, below: nat)
    requires d >= 1 && b < 0x100 && below < d && n == d * (0x100 * above + b) + below
    ensures ByteOf(n / d) == b
  {
    DivModUnique(n, d, 0x100 * above + b, below);
    DivModUnique(0x100 * above + b, 0x100, above, b);
  }

  /** Converting to a word and back, either way round. */
  lemma WordRoundTrip(n: Word)
    ensures ToWord(FromWord(n)) == n
  {
    FromWordIs(n);
    ToWordIs(Digits(n));
    DigitsNumber(n);
  }

  lemma QuadRoundTrip(q: Quad)
    ensures ToWord(q) == Number(q) && FromWord(Number(q)) == q
  {
    ToWordIs(q);
    FromWordIs(Number(q));
    NumberDigits(q);
  }

  // ---- subnets ------------------------------------------------------------------------

  /** How many addresses share a prefix. */
  function Block(ones: nat): (b: nat)
    requires ones <= 32
    ensures 1 <= b
  {
    Pow2(32 - ones)
  }

  /** A word with its k low bits cleared. */
  function Cleared(n: nat, k: nat): (r: nat)
    ensures r <= n < r + Pow2(k)
  {
    SplitAt(n, k);
    n - Low(n, k)
  }

  /** The first address of the block of addresses that s.ip lies in. */
  function Base(s: Subnet): (r: nat)
    requires s.ones <= 32
    ensures r <= Number(s.ip) < r + Block(s.ones)
  {
    Cleared(Number(s.ip), 32 - s.ones)
  }

  lemma MaskedWord(ip: nat, mask: nat, n: Word, k: nat)
    requires k <= 32 && ip == n && mask == 0x1_0000_0000 - Pow2(k)
    ensures And(ip, mask) == Cleared(n, k)
  {
    assert Pow2(32) == 0x1_0000_0000 by { Pow2Values(); }
    AndHigh(n, k, 32);
  }

  /** All bits outside the mask set: the last address that agrees with ip under the mask. */
  lemma Filled(ip: nat, mask: Word)
    ensures Or(And(ip, mask), Xor(mask, 0xFFFF_FFFF)) == And(ip, mask) + (0xFFFF_FFFF - mask)
  {
    Pow2Values();
    XorOnes(mask, 32);
    OrOutside(ip, mask, 0xFFFF_FFFF - mask, 32);
  }

  /** A block of four or more starts at a multiple of four. */
  lemma ByFour(n: nat, k: nat) returns (a: nat, b: nat)
    requires k >= 2
    ensures Cleared(n, k) == 4 * a && Pow2(k) == 4 * b && b >= 1
  {
    LowTwice(n, k);
    SplitAt(n / 2 / 2, k - 2);
    a, b := n / 2 / 2 - Low(n / 2 / 2, k - 2), Pow2(k - 2);
    assert Pow2(k) == 2 * Pow2(k - 1) && Pow2(k - 1) == 2 * b;
  }

  lemma LowStep(x: nat, k: nat)
    requires k >= 1
    ensures Low(x, k) == 2 * Low(x / 2, k - 1) + x % 2
  {
  }

  lemma LowTwice(n: nat, k: nat)
    requires k >= 2
    ensures Low(n, k) == 4 * Low(n / 2 / 2, k - 2) + 2 * (n / 2 % 2) + n % 2
  {
    LowStep(n, k);
    LowStep(n / 2, k - 1);
  }

  // ---- the operations -------------------------------------------------------------------

  method ToUint32(q: Quad) returns (n: Word)
    ensures n == Number(q)
  {
    ToWordIs(q);
    n := ToWord(q);
  }

  method Uint32ToIp(n: Word) returns (q: Quad)
    ensures q == Digits(n) && Number(q) == n
  {
    FromWordIs(n);
    DigitsNumber(n);
    q := FromWord(n);
  }

  /** The mask is the given number of ones and then zeros. */
  predicate Canonical(s: Subnet) {
    s.ones <= 32 && Number(s.mask) + Block(s.ones) == 0x1_0000_0000
  }

  /** What a mask keeps of an address, and how many addresses further the last one with that prefix is. */
  function Network(s: Subnet): nat {
    And(Number(s.ip), Number(s.mask))
  }

  function Spread(s: Subnet): nat {
    0xFFFF_FFFF - Number(s.mask)
  }

  /** The number of ones the mask is said to have: its own if it is ones followed by zeros, else 0. */
  ghost predicate Sized(s: Subnet) {
    Canonical(s) || (s.ones == 0 && forall n: nat :: n <= 32 ==> !Canonical(s.(ones := n)))
  }

  lemma NetworkEnds(s: Subnet)
    ensures Network(s) + Spread(s) < 0x1_0000_0000
    ensures Canonical(s) ==> Network(s) == Base(s) && Spread(s) == Block(s.ones) - 1
  {
    AndBelow(Number(s.ip), Number(s.mask));
    if Canonical(s) { CanonicalEnds(s, Number(s.ip), Number(s.mask)); }
  }

  lemma CanonicalEnds(s: Subnet, n: Word, m: nat)
    requires s.ones <= 32 && n == Number(s.ip) && m + Block(s.ones) == 0x1_0000_0000
    ensures And(n, m) == Base(s)
  {
    MaskedWord(n, m, n, 32 - s.ones);
  }

  lemma {:induction false} AndBelow(x: nat, m: nat)
    ensures And(x, m) <= m
  {
    if x > 0 { AndBelow(x / 2, m / 2); }
  }

  method NetworkAddr(s: Subnet) returns (q: Quad)
    ensures Number(q) == Network(s) && (Canonical(s) ==> Number(q) == Base(s))
  {
    var mask := ToUint32(s.mask);
    var ip := ToUint32(s.ip);
    NetworkEnds(s);
    q := Uint32ToIp(And(ip, mask));
  }

  method BroadcastAddr(s: Subnet) returns (q: Quad)
    ensures Number(q) == Network(s) + Spread(s) && (Canonical(s) ==> Number(q) == Base(s) + Block(s.ones) - 1)
  {
    var mask := ToUint32(s.mask);
    var ip := ToUint32(s.ip);
    NetworkEnds(s);
    Filled(ip, mask);
    q := Uint32ToIp(Or(And(ip, mask), Xor(mask, 0xFFFF_FFFF)));
  }

  /** The address with its last byte stepped up or down, which wraps. */
  function Up(n: nat): nat {
    n - n % 0x100 + (n + 1) % 0x100
  }

  function Down(n: nat): nat {
    n - n % 0x100 + (n + 0xFF) % 0x100
  }

  lemma UpDown(q: Quad)
    ensures Number(q.(b3 := ByteOf(q.b3 + 1))) == Up(Number(q))
    ensures Number(q.(b3 := ByteOf(q.b3 + 0xFF))) == Down(Number(q))
  {
    NumberParts(q);
    NumberParts(q.(b3 := ByteOf(q.b3 + 1)));
    NumberParts(q.(b3 := ByteOf(q.b3 + 0xFF)));
    SteppedParts(Number(q), UpperBytes(q), q.b3);
  }

  /** The number of the bytes before the last one. */
  function UpperBytes(q: Quad): nat {
    q.b0 * 0x1_0000 + q.b1 * 0x100 + q.b2
  }

  lemma NumberParts(q: Quad)
    ensures Number(q) == 0x100 * UpperBytes(q) + q.b3
  {
  }

  lemma SteppedParts(n: nat, a: nat, b: nat)
    requires n == 0x100 * a + b && b < 0x100
    ensures Up(n) == 0x100 * a + (b + 1) % 0x100 && Down(n) == 0x100 * a + (b + 0xFF) % 0x100
  {
    LastByte(n, a, b);
  }

  lemma LastByte(n: nat, a: nat, b: nat)
    requires n == 0x100 * a + b && b < 0x100
    ensures n % 0x100 == b && (n + 1) % 0x100 == (b + 1) % 0x100 && (n + 0xFF) % 0x100 == (b + 0xFF) % 0x100
  {
    DivModUnique(n, 0x100, a, b);
    if b == 0xFF { DivModUnique(n + 1, 0x100, a + 1, 0); } else { DivModUnique(n + 1, 0x100, a, b + 1); }
    if b == 0 { DivModUnique(n + 0xFF, 0x100, a, 0xFF); } else { DivModUnique(n + 0xFF, 0x100, a + 1, b - 1); }
  }

  /** The last byte does not wrap at the ends of a block of four or more. */
  lemma EndsDoNotWrap(s: Subnet)
    requires Canonical(s) && s.ones <= 30
    ensures Up(Base(s)) == Base(s) + 1 && Down(Base(s) + Block(s.ones) - 1) == Base(s) + Block(s.ones) - 2
    ensures Block(s.ones) >= 4
  {
    var a, b := ByFour(Number(s.ip), 32 - s.ones);
    UpByFour(a);
    DownByFour(a + b - 1);
  }

  lemma UpByFour(a: nat)
    ensures Up(4 * a) == 4 * a + 1
  {
    LastByte(4 * a, a / 0x40, 4 * (a % 0x40));
  }

  lemma DownByFour(a: nat)
    ensures Down(4 * a + 3) == 4 * a + 2
  {
    LastByte(4 * a + 3, a / 0x40, 4 * (a % 0x40) + 3);
  }

  method FirstUsable(s: Subnet) returns (q: Quad)
    ensures Number(q) == if s.ones <= 30 then Up(Network(s)) else Network(s)
    ensures Canonical(s) ==> Number(q) == Base(s) + if s.ones <= 30 then 1 else 0
  {
    q := NetworkAddr(s);
    if s.ones <= 30 {
      if Canonical(s) { EndsDoNotWrap(s); }
      UpDown(q);
      q := q.(b3 := ByteOf(q.b3 + 1));
    }
  }

  method LastUsable(s: Subnet) returns (q: Quad)
    ensures Number(q) == if s.ones <= 30 then Down(Network(s) + Spread(s)) else Network(s) + Spread(s)
    ensures Canonical(s) ==> Number(q) == Base(s) + Block(s.ones) - if s.ones <= 30 then 2 else 1
  {
    q := BroadcastAddr(s);
    if s.ones <= 30 {
      if Canonical(s) { EndsDoNotWrap(s); }
      UpDown(q);
      q := q.(b3 := ByteOf(q.b3 + 0xFF));
    }
  }
}
