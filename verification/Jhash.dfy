/**
  Bob Jenkins' hash, in its byte-wise, word-wise and fixed-size forms.  Words are numbers
  below 2^32, and every operation says where it wraps around.
 */
module Jhash {
  import opened Common

  const GOLDEN_RATIO: U32 := 0xdeadbeef

  /** The three words the hash works on. */
  datatype Abc = Abc(a: U32, b: U32, c: U32)

  // ---------- 32-bit operations ----------

  function Plus(x: U32, y: U32): U32 { (x + y) % TWO_32 }

  function Minus(x: U32, y: U32): U32 { (x - y) % TWO_32 }

  /** Bitwise exclusive or of two n-bit numbers. */
  function XorBits(n: nat, x: nat, y: nat): (z: nat)
    requires x < Pow2(n) && y < Pow2(n)
    ensures z < Pow2(n)
  {
    if n == 0 then 0 else 2 * XorBits(n - 1, x / 2, y / 2) + if x % 2 == y % 2 then 0 else 1
  }

  lemma WordIsPow2()
    ensures Pow2(32) == TWO_32
  {
    assert Pow2(8) == 256;
    assert Pow2(16) == 0x1_0000;
    assert Pow2(24) == 0x100_0000;
  }

  function Xor(x: U32, y: U32): U32 {
    WordIsPow2();
    XorBits(32, x, y)
  }

  lemma {:induction false} XorBitsTwice(n: nat, x: nat, y: nat)
    requires x < Pow2(n) && y < Pow2(n)
    ensures XorBits(n, XorBits(n, x, y), y) == x
  {
    if n > 0 {
      var w, z := XorBits(n - 1, x / 2, y / 2), XorBits(n, x, y);
      assert z == 2 * w + if x % 2 == y % 2 then 0 else 1;
      XorBitsTwice(n - 1, x / 2, y / 2);
      assert XorBits(n, z, y) == 2 * XorBits(n - 1, z / 2, y / 2) + if z % 2 == y % 2 then 0 else 1;
    }
  }

  /** The high k bits come back in at the low end; the two parts have no bit in common. */
  function Rot(x: U32, k: nat): U32
    requires 0 < k < 32
  {
    (x * Pow2(k) + x / Pow2(32 - k)) % TWO_32
  }

  lemma XorTwice(x: U32, y: U32)
    ensures Xor(Xor(x, y), y) == x
  {
    WordIsPow2();
    XorBitsTwice(32, x, y);
  }

  // ---------- what they do to the single bits ----------

  predicate Bit(x: nat, i: nat) {
    if i == 0 then x % 2 == 1 else Bit(x / 2, i - 1)
  }

  lemma {:induction false} XorBitsBit(n: nat, x: nat, y: nat, i: nat)
    requires x < Pow2(n) && y < Pow2(n) && i < n
    ensures Bit(XorBits(n, x, y), i) <==> Bit(x, i) != Bit(y, i)
  {
    if i > 0 {
      XorBitsBit(n - 1, x / 2, y / 2, i - 1);
    }
  }

  /** A bit is set if and only if just one of the two is. */
  lemma XorBit(x: U32, y: U32, i: nat)
    requires i < 32
    ensures Bit(Xor(x, y), i) <==> Bit(x, i) != Bit(y, i)
  {
    WordIsPow2();
    XorBitsBit(32, x, y, i);
  }

  lemma {:induction false} BitsAbove(a: nat, b: nat, n: nat, i: nat)
    requires b < Pow2(n)
    ensures Bit(a * Pow2(n) + b, n + i) == Bit(a, i)
  {
    if n > 0 {
      assert a * Pow2(n) == 2 * (a * Pow2(n - 1));
      assert (a * Pow2(n) + b) / 2 == a * Pow2(n - 1) + b / 2;
      BitsAbove(a, b / 2, n - 1, i);
    }
  }

  lemma {:induction false} BitsBelow(a: nat, b: nat, n: nat, i: nat)
    requires i < n
    ensures Bit(a * Pow2(n) + b, i) == Bit(b, i)
  {
    assert a * Pow2(n) == 2 * (a * Pow2(n - 1));
    if i > 0 {
      assert (a * Pow2(n) + b) / 2 == a * Pow2(n - 1) + b / 2;
      BitsBelow(a, b / 2, n - 1, i - 1);
    }
  }

  lemma TimesGrows(a: nat, b: nat, m: nat)
    ensures a >= b ==> a * m >= b * m
  {
    if a >= b {
      assert a * m == b * m + (a - b) * m;
    }
  }

  /** A word of a high and a low part, once it is moved up by `p`. */
  lemma MovedUp(x: nat, hi: nat, lo: nat, m: nat, p: nat)
    requires m * p == TWO_32 && x == hi * m + lo && lo < m && x < TWO_32
    ensures hi < p && (x * p + hi) % TWO_32 == lo * p + hi
  {
    TimesGrows(hi, p, m);
    assert hi < p;
    TimesGrows(m, lo + 1, p);
    assert (lo + 1) * p == lo * p + p;
    assert x * p == hi * (m * p) + lo * p;
    Wraps(hi, lo * p + hi);
  }

  lemma Wraps(q: nat, r: nat)
    requires r < TWO_32
    ensures (q * TWO_32 + r) % TWO_32 == r
  {
  }

  lemma Parts(x: nat, m: nat) returns (hi: nat, lo: nat)
    requires m > 0
    ensures hi == x / m && lo < m && x == hi * m + lo
  {
    hi, lo := x / m, x % m;
  }

  /** A rotated word is its low part, moved up, with its high part below. */
  lemma RotParts(x: U32, k: nat) returns (hi: nat, lo: nat)
    requires 0 < k < 32
    ensures x == hi * Pow2(32 - k) + lo && lo < Pow2(32 - k) && hi < Pow2(k) && Rot(x, k) == lo * Pow2(k) + hi
  {
    hi, lo := Parts(x, Pow2(32 - k));
    assert Pow2(32 - k) * Pow2(k) == TWO_32 by {
      WordIsPow2();
      Pow2Sum(32 - k, k);
    }
    MovedUp(x, hi, lo, Pow2(32 - k), Pow2(k));
  }

  /** It is a rotation: bit `i` goes to the place that is `k` further, and around the end. */
  lemma RotBit(x: U32, k: nat, i: nat)
    requires 0 < k < 32 && i < 32
    ensures Bit(Rot(x, k), (i + k) % 32) == Bit(x, i)
  {
    var hi, lo := RotParts(x, k);
    PartBits(x, Rot(x, k), hi, lo, 32 - k, k, i);
    Around(i, k);
  }

  lemma Around(i: nat, k: nat)
    requires 0 < k < 32 && i < 32
    ensures (i + k) % 32 == if i < 32 - k then k + i else i - (32 - k)
  {
  }

  lemma PartBits(x: nat, y: nat, hi: nat, lo: nat, m: nat, k: nat, i: nat)
    requires x == hi * Pow2(m) + lo && y == lo * Pow2(k) + hi && lo < Pow2(m) && hi < Pow2(k) && i < m + k
    ensures Bit(y, if i < m then k + i else i - m) == Bit(x, i)
  {
    if i < m {
      BitsAbove(lo, hi, k, i);
      BitsBelow(hi, lo, m, i);
    } else {
      BitsBelow(lo, hi, k, i - m);
      BitsAbove(hi, lo, m, i - m);
    }
  }

  lemma PlusMinus(x: U32, y: U32)
    ensures Plus(Minus(x, y), y) == x
    ensures Minus(Plus(x, y), y) == x
  {
  }

  lemma Undoing(x: U32, y: U32)
    ensures Plus(Minus(x, y), y) == x
    ensures Minus(Plus(x, y), y) == x
    ensures Xor(Xor(x, y), y) == x
  {
    PlusMinus(x, y);
    XorTwice(x, y);
  }

  // ---------- the mixers, and how to undo them ----------

  /** One line of `__jhash_mix`: x takes up z and its rotation, and z takes up y. */
  function MixLine(x: U32, y: U32, z: U32, k: nat): (U32, U32)
    requires 0 < k < 32
  {
    (Xor(Minus(x, z), Rot(z, k)), Plus(z, y))
  }

  function UnmixLine(x: U32, y: U32, z: U32, k: nat): (U32, U32)
    requires 0 < k < 32
  {
    var z0 := Minus(z, y);
    (Plus(Xor(x, Rot(z0, k)), z0), z0)
  }

  lemma MixLineUndone(x: U32, y: U32, z: U32, k: nat)
    requires 0 < k < 32
    ensures var (x', z') := MixLine(x, y, z, k); UnmixLine(x', y, z', k) == (x, z)
    ensures var (x', z') := UnmixLine(x, y, z, k); MixLine(x', y, z', k) == (x, z)
  {
    Undoing(z, y);
    Undoing(x, z);
    Undoing(Minus(x, z), Rot(z, k));
    Undoing(Xor(x, Rot(Minus(z, y), k)), Minus(z, y));
    Undoing(x, Rot(Minus(z, y), k));
  }

  function Mix(s: Abc): Abc {
    var (a1, c1) := MixLine(s.a, s.b, s.c, 4);
    var (b1, a2) := MixLine(s.b, c1, a1, 6);
    var (c2, b2) := MixLine(c1, a2, b1, 8);
    var (a3, c3) := MixLine(a2, b2, c2, 16);
    var (b3, a4) := MixLine(b2, c3, a3, 19);
    var (c4, b4) := MixLine(c3, a4, b3, 4);
    Abc(a4, b4, c4)
  }

  function Unmix(s: Abc): Abc {
    var (c3, b3) := UnmixLine(s.c, s.a, s.b, 4);
    var (b2, a3) := UnmixLine(b3, c3, s.a, 19);
    var (a2, c2) := UnmixLine(a3, b2, c3, 16);
    var (c1, b1) := UnmixLine(c2, a2, b2, 8);
    var (b0, a1) := UnmixLine(b1, c1, a2, 6);
    var (a0, c0) := UnmixLine(a1, b0, c1, 4);
    Abc(a0, b0, c0)
  }

  /** `__jhash_mix` is reversible, as its comment claims. */
  lemma MixReversible(s: Abc)
    ensures Unmix(Mix(s)) == s
  {
    var (a1, c1) := MixLine(s.a, s.b, s.c, 4);
    var (b1, a2) := MixLine(s.b, c1, a1, 6);
    var (c2, b2) := MixLine(c1, a2, b1, 8);
    var (a3, c3) := MixLine(a2, b2, c2, 16);
    var (b3, a4) := MixLine(b2, c3, a3, 19);
    MixLineUndone(s.a, s.b, s.c, 4);
    MixLineUndone(s.b, c1, a1, 6);
    MixLineUndone(c1, a2, b1, 8);
    MixLineUndone(a2, b2, c2, 16);
    MixLineUndone(b2, c3, a3, 19);
    MixLineUndone(c3, a4, b3, 4);
  }

  lemma UnmixReversible(s: Abc)
    ensures Mix(Unmix(s)) == s
  {
    var (c3, b3) := UnmixLine(s.c, s.a, s.b, 4);
    var (b2, a3) := UnmixLine(b3, c3, s.a, 19);
    var (a2, c2) := UnmixLine(a3, b2, c3, 16);
    var (c1, b1) := UnmixLine(c2, a2, b2, 8);
    var (b0, a1) := UnmixLine(b1, c1, a2, 6);
    MixLineUndone(s.c, s.a, s.b, 4);
    MixLineUndone(b3, c3, s.a, 19);
    MixLineUndone(a3, b2, c3, 16);
    MixLineUndone(c2, a2, b2, 8);
    MixLineUndone(b1, c1, a2, 6);
    MixLineUndone(a1, b0, c1, 4);
  }

  /** One line of `__jhash_final`. */
  function FinalLine(x: U32, y: U32, k: nat): U32
    requires 0 < k < 32
  {
    Minus(Xor(x, y), Rot(y, k))
  }

  function UnfinalLine(x: U32, y: U32, k: nat): U32
    requires 0 < k < 32
  {
    Xor(Plus(x, Rot(y, k)), y)
  }

  lemma FinalLineUndone(x: U32, y: U32, k: nat)
    requires 0 < k < 32
    ensures UnfinalLine(FinalLine(x, y, k), y, k) == x
    ensures FinalLine(UnfinalLine(x, y, k), y, k) == x
  {
    Undoing(Xor(x, y), Rot(y, k));
    Undoing(x, y);
    Undoing(Plus(x, Rot(y, k)), y);
    Undoing(x, Rot(y, k));
  }

  function Final(s: Abc): Abc {
    var c1 := FinalLine(s.c, s.b, 14);
    var a1 := FinalLine(s.a, c1, 11);
    var b1 := FinalLine(s.b, a1, 25);
    var c2 := FinalLine(c1, b1, 16);
    var a2 := FinalLine(a1, c2, 4);
    var b2 := FinalLine(b1, a2, 14);
    var c3 := FinalLine(c2, b2, 24);
    Abc(a2, b2, c3)
  }

  function Unfinal(s: Abc): Abc {
    var c2 := UnfinalLine(s.c, s.b, 24);
    var b1 := UnfinalLine(s.b, s.a, 14);
    var a1 := UnfinalLine(s.a, c2, 4);
    var c1 := UnfinalLine(c2, b1, 16);
    var b0 := UnfinalLine(b1, a1, 25);
    var a0 := UnfinalLine(a1, c1, 11);
    var c0 := UnfinalLine(c1, b0, 14);
    Abc(a0, b0, c0)
  }

  lemma FinalReversible(s: Abc)
    ensures Unfinal(Final(s)) == s
  {
    var c1 := FinalLine(s.c, s.b, 14);
    var a1 := FinalLine(s.a, c1, 11);
    var b1 := FinalLine(s.b, a1, 25);
    var c2 := FinalLine(c1, b1, 16);
    var a2 := FinalLine(a1, c2, 4);
    var b2 := FinalLine(b1, a2, 14);
    FinalLineUndone(s.c, s.b, 14);
    FinalLineUndone(s.a, c1, 11);
    FinalLineUndone(s.b, a1, 25);
    FinalLineUndone(c1, b1, 16);
    FinalLineUndone(a1, c2, 4);
    FinalLineUndone(b1, a2, 14);
    FinalLineUndone(c2, b2, 24);
  }

  lemma UnfinalReversible(s: Abc)
    ensures Final(Unfinal(s)) == s
  {
    var c2 := UnfinalLine(s.c, s.b, 24);
    var b1 := UnfinalLine(s.b, s.a, 14);
    var a1 := UnfinalLine(s.a, c2, 4);
    var c1 := UnfinalLine(c2, b1, 16);
    var b0 := UnfinalLine(b1, a1, 25);
    var a0 := UnfinalLine(a1, c1, 11);
    FinalLineUndone(s.c, s.b, 24);
    FinalLineUndone(s.b, s.a, 14);
    FinalLineUndone(s.a, c2, 4);
    FinalLineUndone(c2, b1, 16);
    FinalLineUndone(b1, a1, 25);
    FinalLineUndone(a1, c1, 11);
    FinalLineUndone(c1, b0, 14);
  }

  // ---------- the hash of a sequence of words: the reference ----------

  function Add(s: Abc, x: U32, y: U32, z: U32): Abc {
    Abc(Plus(s.a, x), Plus(s.b, y), Plus(s.c, z))
  }

  /** The last one to three words. */
  function AddLast(s: Abc, k: seq<U32>): Abc
    requires 0 < |k| <= 3
  {
    Abc(Plus(s.a, k[0]), if |k| > 1 then Plus(s.b, k[1]) else s.b, if |k| > 2 then Plus(s.c, k[2]) else s.c)
  }

  /** Three words at a time, the last one to three of them with the final mixing. */
  function HashWords(k: seq<U32>, s: Abc): U32 {
    if |k| > 3 then HashWords(k[3..], Mix(Add(s, k[0], k[1], k[2])))
    else if |k| > 0 then Final(AddLast(s, k)).c
    else s.c
  }

  /** Where a hash starts from, for a key of that many bytes. */
  function Start(bytes: nat, initval: U32): Abc {
    var x := (GOLDEN_RATIO + bytes + initval) % TWO_32;
    Abc(x, x, x)
  }

  /** Three words at the end go to the same places as three words before. */
  lemma LastThree(s: Abc, x: U32, y: U32, z: U32)
    ensures HashWords([x, y, z], s) == Final(Add(s, x, y, z)).c
  {
    assert AddLast(s, [x, y, z]) == Add(s, x, y, z);
  }

  /** The empty key with no seed has the hash that lookup3.c gives for it. */
  lemma HashOfNothing(initval: U32)
    ensures HashWords([], Start(0, initval)) == Plus(0xdeadbeef, initval)
  {
  }

  // ---------- bytes and words ----------

  function LowByte(x: nat): Byte { x % 256 }

  function LittleEndian(w: U32): seq<Byte> {
    [LowByte(w), LowByte(w / 0x100), LowByte(w / 0x1_0000), LowByte(w / 0x100_0000)]
  }

  lemma WordOfBytes(w: U32)
    ensures Word(LittleEndian(w), 0) == w
  {
    var w1, w2 := w / 0x100, w / 0x1_0000;
    assert w2 == w1 / 0x100 && w / 0x100_0000 == w2 / 0x100;
  }

  function Bytes(ws: seq<U32>): (k: seq<Byte>)
    ensures |k| == 4 * |ws|
  {
    if ws == [] then [] else LittleEndian(ws[0]) + Bytes(ws[1..])
  }

  function Word(k: seq<Byte>, i: nat): U32
    requires i + 3 < |k|
  {
    k[i] as int + 0x100 * k[i + 1] as int + 0x1_0000 * k[i + 2] as int + 0x100_0000 * k[i + 3] as int
  }

  /** The words of a string of bytes, the last one filled up with zeroes. */
  function Padded(k: seq<Byte>): (ws: seq<U32>)
    ensures |ws| == (|k| + 3) / 4
  {
    if k == [] then []
    else if |k| < 4 then [Word(k + [0, 0, 0], 0)]
    else [Word(k, 0)] + Padded(k[4..])
  }

  lemma {:induction false} PaddedBytes(ws: seq<U32>)
    ensures Padded(Bytes(ws)) == ws
  {
    if ws != [] {
      var k := Bytes(ws);
      assert k[4..] == Bytes(ws[1..]);
      assert Word(k, 0) == Word(LittleEndian(ws[0]), 0);
      WordOfBytes(ws[0]);
      PaddedBytes(ws[1..]);
    }
  }

  // ---------- the loops of the program ----------

  /** One of the additions of the byte-wise form: a block of twelve bytes joins the state. */
  function AddBlock(s: Abc, k: seq<Byte>, i: nat): Abc
    requires i + 12 <= |k|
  {
    Add(s, Word(k, i), Word(k, i + 4), Word(k, i + 8))
  }

  /** The byte at `i`, moved up, if the key is that long: one case of the fall-through switch. */
  function Tail(x: U32, k: seq<Byte>, i: nat, unit: nat): U32
    requires unit in {1, 0x100, 0x1_0000, 0x100_0000}
  {
    if i < |k| then Plus(x, k[i] as int * unit) else x
  }

  /** Four cases of the switch: the bytes from `i` on, the highest first. */
  function TailWord(x: U32, k: seq<Byte>, i: nat): U32 {
    Tail(Tail(Tail(Tail(x, k, i + 3, 0x100_0000), k, i + 2, 0x1_0000), k, i + 1, 0x100), k, i, 1)
  }

  /** `jhash` */
  method Hash(key: seq<Byte>, initval: U32) returns (c: U32)
    requires |key| < TWO_32
    ensures c == HashWords(Padded(key), Start(|key|, initval))
  {
    var s := Start(|key|, initval);
    var k := key;
    while |k| > 12
      invariant HashWords(Padded(k), s) == HashWords(Padded(key), Start(|key|, initval))
    {
      PaddedBlock(k);
      s := Mix(AddBlock(s, k, 0));
      k := k[12..];
    }
    if |k| != 0 {
      PaddedTail(k, s);
      s := Final(SwitchTail(s, k));
    }
    c := s.c;
  }

  lemma PaddedBlock(k: seq<Byte>)
    requires |k| > 12
    ensures var w := Padded(k);
      && |w| > 3 && w[3..] == Padded(k[12..])
      && w[0] == Word(k, 0) && w[1] == Word(k, 4) && w[2] == Word(k, 8)
  {
    var k4, k8, k12 := k[4..], k[8..], k[12..];
    assert k4[4..] == k8 && k8[4..] == k12;
    PaddedStep(k, k4);
    PaddedStep(k4, k8);
    PaddedStep(k8, k12);
    assert Padded(k) == [Word(k, 0), Word(k4, 0), Word(k8, 0)] + Padded(k12);
  }

  lemma PaddedStep(k: seq<Byte>, rest: seq<Byte>)
    requires |k| >= 4 && rest == k[4..]
    ensures Padded(k) == [Word(k, 0)] + Padded(rest)
  {
  }

  lemma PlusTwice(x: U32, y: nat, z: nat)
    requires y < TWO_32 && z < TWO_32 && y + z < TWO_32
    ensures Plus(Plus(x, y), z) == Plus(x, y + z)
  {
  }

  /** The four bytes from `i` on, as far as the key goes, in the order the switch adds them. */
  lemma FourBytes(x: U32, k: seq<Byte>, i: nat)
    requires |k| <= 12
    ensures TailWord(x, k, i) == if i >= |k| then x else Plus(x, Padded(k[i..])[0])
  {
    if i < |k| {
      var w := if i + 4 <= |k| then k[i..] else k[i..] + [0, 0, 0];
      assert Padded(k[i..])[0] == Word(w, 0);
      var b1, b2, b3 := 0x100 * w[1] as int, 0x1_0000 * w[2] as int, 0x100_0000 * w[3] as int;
      assert Tail(x, k, i + 3, 0x100_0000) == Plus(x, b3);
      PlusTwice(x, b3, b2);
      assert Tail(Plus(x, b3), k, i + 2, 0x1_0000) == Plus(x, b3 + b2);
      PlusTwice(x, b3 + b2, b1);
      assert Tail(Plus(x, b3 + b2), k, i + 1, 0x100) == Plus(x, b3 + b2 + b1);
      PlusTwice(x, b3 + b2 + b1, w[0]);
    }
  }

  /** The state the switch leaves, whatever the length it is entered with. */
  function SwitchTail(s: Abc, k: seq<Byte>): Abc {
    Abc(TailWord(s.a, k, 0), TailWord(s.b, k, 4), TailWord(s.c, k, 8))
  }

  lemma PaddedFrom(k: seq<Byte>)
    requires 0 < |k| <= 12
    ensures Padded(k)[0] == Padded(k[0..])[0]
    ensures |k| > 4 ==> Padded(k)[1] == Padded(k[4..])[0]
    ensures |k| > 8 ==> Padded(k)[2] == Padded(k[8..])[0]
  {
    assert k[0..] == k;
    if |k| > 8 {
      assert k[4..][4..] == k[8..];
      assert Padded(k[4..]) == [Word(k[4..], 0)] + Padded(k[8..]);
    }
  }

  lemma PaddedTail(k: seq<Byte>, s: Abc)
    requires 0 < |k| <= 12
    ensures SwitchTail(s, k) == AddLast(s, Padded(k))
  {
    FourBytes(s.c, k, 8);
    FourBytes(s.b, k, 4);
    FourBytes(s.a, k, 0);
    PaddedFrom(k);
  }

  /** `jhash2` */
  method HashOfWords(key: seq<U32>, initval: U32) returns (c: U32)
    requires |key| < TWO_32
    ensures c == HashWords(key, Start(4 * |key|, initval))
  {
    var s := Start(4 * |key|, initval);
    var k := key;
    while |k| > 3
      invariant HashWords(k, s) == HashWords(key, Start(4 * |key|, initval))
    {
      s := Mix(Add(s, k[0], k[1], k[2]));
      k := k[3..];
    }
    if |k| != 0 {
      s := Final(AddLast(s, k));
    }
    c := s.c;
  }

  /** `jhash_3words` */
  function Hash3(a: U32, b: U32, c: U32, initval: U32): U32 {
    var g := Plus(GOLDEN_RATIO, initval);
    Final(Abc(Plus(a, g), Plus(b, g), Plus(c, g))).c
  }

  /** The byte-wise hash of the bytes of some words is the word-wise hash of the words. */
  method SameHash(words: seq<U32>, initval: U32) returns (bytewise: U32, wordwise: U32)
    requires 4 * |words| < TWO_32
    ensures bytewise == wordwise
  {
    PaddedBytes(words);
    bytewise := Hash(Bytes(words), initval);
    wordwise := HashOfWords(words, initval);
  }

  /** The three-word form leaves the length out of its start: seeded with it, it is the general hash. */
  lemma Hash3IsHash(a: U32, b: U32, c: U32, initval: U32)
    ensures Hash3(a, b, c, Plus(initval, 12)) == HashWords([a, b, c], Start(12, initval))
  {
    var g := Plus(GOLDEN_RATIO, Plus(initval, 12));
    var x := Start(12, initval).a;
    assert g == x;
    assert Plus(a, g) == Plus(x, a) && Plus(b, g) == Plus(x, b) && Plus(c, g) == Plus(x, c);
  }
}
