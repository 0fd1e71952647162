/**
 The key generator of the ingest benchmark.  A `u32` is a natural number below 2^32;
 shifts, exclusive or and wrapping multiplication are written out on such numbers.
 */
module Murmur {
  import opened Prelude

  const WORD: nat := 0x1_0000_0000

  // ----- bit operations ------------------------------------------------------------------

  function Xor(a: nat, b: nat): nat
    decreases a + b
  {
    if a == 0 && b == 0 then 0 else 2 * Xor(a / 2, b / 2) + (if a % 2 == b % 2 then 0 else 1)
  }

  /** `a >> k` */
  function Shr(a: nat, k: nat): nat
    decreases k
  {
    if k == 0 then a else Shr(a / 2, k - 1)
  }

  function Pow2(k: nat): nat {
    if k == 0 then 1 else 2 * Pow2(k - 1)
  }

  lemma {:induction false} XorAssoc(a: nat, b: nat, c: nat)
    ensures Xor(Xor(a, b), c) == Xor(a, Xor(b, c))
    decreases a + b + c
  {
    if a + b + c > 0 {
      XorAssoc(a / 2, b / 2, c / 2);
      var l, r := Xor(Xor(a, b), c), Xor(a, Xor(b, c));
      XorParts(a, b);
      XorParts(b, c);
      XorParts(Xor(a, b), c);
      XorParts(a, Xor(b, c));
      assert l / 2 == r / 2;
      assert l % 2 == r % 2;
      Halves(l, r);
    }
  }

  lemma Halves(l: nat, r: nat)
    requires l / 2 == r / 2 && l % 2 == r % 2
    ensures l == r
  {
  }

  lemma XorParts(a: nat, b: nat)
    ensures Xor(a, b) / 2 == Xor(a / 2, b / 2) && Xor(a, b) % 2 == (if a % 2 == b % 2 then 0 else 1)
  {
  }

  lemma {:induction false} XorSelf(a: nat)
    ensures Xor(a, a) == 0 && Xor(a, 0) == a
  {
    if a > 0 {
      XorSelf(a / 2);
    }
  }

  lemma {:induction false} XorShr(a: nat, b: nat, k: nat)
    ensures Shr(Xor(a, b), k) == Xor(Shr(a, k), Shr(b, k))
    decreases k
  {
    if k > 0 {
      XorParts(a, b);
      XorShr(a / 2, b / 2, k - 1);
    }
  }

  lemma {:induction false} ShrShr(a: nat, j: nat, k: nat)
    ensures Shr(Shr(a, j), k) == Shr(a, j + k)
    decreases j
  {
    if j > 0 {
      ShrShr(a / 2, j - 1, k);
    }
  }

  lemma {:induction false} FitsExactlyWhen(a: nat, k: nat)
    ensures Shr(a, k) == 0 <==> a < Pow2(k)
    decreases k
  {
    if k > 0 {
      FitsExactlyWhen(a / 2, k - 1);
    }
  }

  lemma WordIsPow2()
    ensures Pow2(32) == WORD
  {
    Pow2Add(4, 4);
    Pow2Add(8, 8);
    Pow2Add(16, 16);
    assert Pow2(2) == 4;
    assert Pow2(4) == 16;
  }

  lemma {:induction false} Pow2Add(j: nat, k: nat)
    ensures Pow2(j + k) == Pow2(j) * Pow2(k)
  {
    if j > 0 {
      Pow2Add(j - 1, k);
    }
  }

  /** A word shifted by 32 or more is zero, and only then. */
  lemma WordFits(a: nat, k: nat)
    requires a < WORD && k >= 32
    ensures Shr(a, k) == 0
  {
    WordIsPow2();
    FitsExactlyWhen(a, 32);
    ShrShr(a, 32, k - 32);
    FitsExactlyWhen(0, k - 32);
    PowPositive(k - 32);
  }

  lemma {:induction false} PowPositive(k: nat)
    ensures Pow2(k) >= 1
  {
    if k > 0 {
      PowPositive(k - 1);
    }
  }

  lemma XorWord(a: nat, b: nat)
    requires a < WORD && b < WORD
    ensures Xor(a, b) < WORD
  {
    WordFits(a, 32);
    WordFits(b, 32);
    XorShr(a, b, 32);
    WordIsPow2();
    FitsExactlyWhen(Xor(a, b), 32);
  }

  lemma {:induction false} ShrWord(a: nat, k: nat)
    ensures Shr(a, k) <= a
    decreases k
  {
    if k > 0 {
      ShrWord(a / 2, k - 1);
    }
  }

  // ----- the hash -------------------------------------------------------------------------

  /** `h ^= h >> k` */
  function XorShift(h: nat, k: nat): (r: nat)
    ensures h < WORD ==> r < WORD
  {
    ShrWord(h, k);
    if h < WORD then XorWord(h, Shr(h, k)); Xor(h, Shr(h, k)) else Xor(h, Shr(h, k))
  }

  function Hash(h0: nat): nat
    requires h0 < WORD
  {
    var h1 := XorShift(h0, 16);
    var h2 := (h1 * 0x85eb_ca6b) % WORD;
    var h3 := XorShift(h2, 13);
    var h4 := (h3 * 0xc2b2_ae35) % WORD;
    XorShift(h4, 16)
  }

  method Murmurhash32(h0: nat) returns (h: nat)
    requires h0 < WORD
    ensures h == Hash(h0) && h < WORD
  {
    h := h0;
    h := XorShift(h, 16);
    h := (h * 0x85eb_ca6b) % WORD;
    h := XorShift(h, 13);
    h := (h * 0xc2b2_ae35) % WORD;
    h := XorShift(h, 16);
  }

  /** The hash undone: the same shifts, and the inverses of the odd multipliers modulo 2^32. */
  function Unhash(h0: nat): (r: nat)
    requires h0 < WORD
    ensures r < WORD
  {
    var h1 := XorShift(h0, 16);
    var h2 := (h1 * 0x7ed1_b41d) % WORD;
    var h3 := UndoShift13(h2);
    var h4 := (h3 * 0xa5cb_9243) % WORD;
    XorShift(h4, 16)
  }

  function UndoShift13(y: nat): (r: nat)
    ensures y < WORD ==> r < WORD
  {
    ShrWord(y, 26);
    if y < WORD then XorWord(XorShift(y, 13), Shr(y, 26)); Xor(XorShift(y, 13), Shr(y, 26))
    else Xor(XorShift(y, 13), Shr(y, 26))
  }

  lemma XorCancel(a: nat, b: nat)
    ensures Xor(Xor(a, b), b) == a
  {
    XorAssoc(a, b, b);
    XorSelf(b);
    XorSelf(a);
  }

  lemma Shift16(x: nat)
    requires x < WORD
    ensures XorShift(XorShift(x, 16), 16) == x
  {
    var s := Shr(x, 16);
    XorShr(x, s, 16);
    ShrShr(x, 16, 16);
    WordFits(x, 32);
    XorSelf(s);
    XorCancel(x, s);
  }

  lemma Shift13(x: nat)
    requires x < WORD
    ensures UndoShift13(XorShift(x, 13)) == x && XorShift(UndoShift13(x), 13) == x
  {
    var a, b := Shr(x, 13), Shr(x, 26);
    ShrShr(x, 13, 13);
    ShrShr(x, 13, 26);
    ShrShr(x, 26, 13);
    WordFits(x, 39);
    // forwards: x^a, then (x^a)^(a^b)^b
    var y := Xor(x, a);
    XorShr(x, a, 13);
    XorShr(x, a, 26);
    XorSelf(b);
    XorAssoc(x, a, Xor(a, b));
    XorAssoc(a, a, b);
    XorSelf(a);
    XorZeroLeft(b);
    XorCancel(x, b);
    // backwards: (x^a)^b, then that ^ ((a^b)^0)
    var z := Xor(Xor(x, a), b);
    XorShr(Xor(x, a), b, 13);
    XorSelf(Xor(a, b));
    XorAssoc(Xor(x, a), b, Xor(a, b));
    XorAssoc(x, a, Xor(b, Xor(a, b)));
    XorComm(a, b);
    XorAssoc(b, b, a);
    XorZeroLeft(a);
    XorSelf(x);
  }

  lemma {:induction false} XorComm(a: nat, b: nat)
    ensures Xor(a, b) == Xor(b, a)
    decreases a + b
  {
    if a + b > 0 {
      XorComm(a / 2, b / 2);
    }
  }

  lemma XorZeroLeft(a: nat)
    ensures Xor(0, a) == a
  {
    XorComm(0, a);
    XorSelf(a);
  }

  lemma ModUnique(y: nat, x: nat, k: int)
    requires x < WORD && y == x + WORD * k
    ensures y % WORD == x
  {
  }

  lemma Mul1(x: nat)
    requires x < WORD
    ensures ((x * 0x85eb_ca6b) % WORD * 0xa5cb_9243) % WORD == x
  {
    var q, r := x * 0x85eb_ca6b / WORD, (x * 0x85eb_ca6b) % WORD;
    assert x * 0x85eb_ca6b == q * WORD + r;
    ModUnique(r * 0xa5cb_9243, x, x * 0x56bb77f4 - q * 0xa5cb_9243);
  }

  lemma Mul1Back(x: nat)
    requires x < WORD
    ensures ((x * 0xa5cb_9243) % WORD * 0x85eb_ca6b) % WORD == x
  {
    var q, r := x * 0xa5cb_9243 / WORD, (x * 0xa5cb_9243) % WORD;
    assert x * 0xa5cb_9243 == q * WORD + r;
    ModUnique(r * 0x85eb_ca6b, x, x * 0x56bb77f4 - q * 0x85eb_ca6b);
  }

  lemma Mul2(x: nat)
    requires x < WORD
    ensures ((x * 0xc2b2_ae35) % WORD * 0x7ed1_b41d) % WORD == x
  {
    var q, r := x * 0xc2b2_ae35 / WORD, (x * 0xc2b2_ae35) % WORD;
    assert x * 0xc2b2_ae35 == q * WORD + r;
    ModUnique(r * 0x7ed1_b41d, x, x * 0x60736e9a - q * 0x7ed1_b41d);
  }

  lemma Mul2Back(x: nat)
    requires x < WORD
    ensures ((x * 0x7ed1_b41d) % WORD * 0xc2b2_ae35) % WORD == x
  {
    var q, r := x * 0x7ed1_b41d / WORD, (x * 0x7ed1_b41d) % WORD;
    assert x * 0x7ed1_b41d == q * WORD + r;
    ModUnique(r * 0xc2b2_ae35, x, x * 0x60736e9a - q * 0xc2b2_ae35);
  }

  /** `Unhash` is a two-sided inverse: the hash is a bijection of the 32-bit words. */
  lemma HashIsBijective(h: nat)
    requires h < WORD
    ensures Hash(h) < WORD && Unhash(Hash(h)) == h && Hash(Unhash(h)) == h
  {
    var a := XorShift(h, 16);
    Shift16(h);
    Mul1(a);
    var b := (a * 0x85eb_ca6b) % WORD;
    Shift13(b);
    var c := XorShift(b, 13);
    Mul2(c);
    Shift16((c * 0xc2b2_ae35) % WORD);

    Mul2Back(a);
    var d := (a * 0x7ed1_b41d) % WORD;
    Shift13(d);
    var e := UndoShift13(d);
    Mul1Back(e);
    Shift16((e * 0xa5cb_9243) % WORD);
  }

  // ----- the generated keys -------------------------------------------------------------------

  datatype KeyLayout = Sequential | Random

  /** `field6` of the key of put number `i`; `i as u32` drops the higher bits. */
  function KeyAt(layout: KeyLayout, i: nat): nat {
    match layout
    case Sequential => i % WORD
    case Random => Hash(i % WORD)
  }

  method IngestKeys(putCount: nat, layout: KeyLayout) returns (keys: seq<nat>)
    ensures |keys| == putCount && forall i :: 0 <= i < putCount ==> keys[i] == KeyAt(layout, i)
    ensures Distinct(keys) <==> putCount <= WORD
  {
    keys := [];
    for i := 0 to putCount
      invariant |keys| == i && forall j :: 0 <= j < i ==> keys[j] == KeyAt(layout, j)
    {
      var field6: nat;
      match layout {
        case Sequential => field6 := i % WORD;
        case Random => field6 := Murmurhash32(i % WORD);
      }
      keys := keys + [field6];
    }
    KeysUniqueExactlyWhen(layout, putCount);
  }

  lemma HashInjective(i: nat, j: nat)
    requires i < WORD && j < WORD && Hash(i) == Hash(j)
    ensures i == j
  {
    HashIsBijective(i);
    HashIsBijective(j);
  }

  lemma SmallIndex(i: nat)
    requires i < WORD
    ensures i % WORD == i
  {
  }

  lemma KeysDiffer(layout: KeyLayout, i: nat, j: nat)
    requires i < j < WORD
    ensures KeyAt(layout, i) != KeyAt(layout, j)
  {
    SmallIndex(i);
    SmallIndex(j);
    if layout == Random && Hash(i) == Hash(j) {
      HashInjective(i, j);
    }
  }

  /** Both layouts give unique keys, exactly up to 2^32 puts. */
  lemma KeysUniqueExactlyWhen(layout: KeyLayout, putCount: nat)
    ensures (forall i, j :: 0 <= i < j < putCount ==> KeyAt(layout, i) != KeyAt(layout, j)) <==> putCount <= WORD
  {
    if putCount <= WORD {
      forall i, j | 0 <= i < j < putCount ensures KeyAt(layout, i) != KeyAt(layout, j) {
        KeysDiffer(layout, i, j);
      }
    } else {
      KeysRepeat(layout);
    }
  }

  lemma KeysRepeat(layout: KeyLayout)
    ensures KeyAt(layout, 0) == KeyAt(layout, WORD)
  {
    assert WORD % WORD == 0;
  }

  /** In the first 2^32 puts every word is used as a key. */
  lemma EveryKeyIsUsed(layout: KeyLayout, key: nat) returns (i: nat)
    requires key < WORD
    ensures i < WORD && KeyAt(layout, i) == key
  {
    i := if layout == Random then Unhash(key) else key;
    SmallIndex(i);
    HashIsBijective(key);
  }
}
