/**
 The headers of simple dynamic strings: five packed layouts in front of one
 pointer, read and written byte by byte.  Multi-byte fields are little-endian.
 */
module Sds {
  import opened Basics

  // ---------- Numbers in memory ----------

  function Pow256(w: nat): (p: nat)
    ensures p > 0
  {
    if w == 0 then 1 else 256 * Pow256(w - 1)
  }

  function Value(bs: bytes): nat {
    if bs == [] then 0 else bs[0] + 256 * Value(bs[1..])
  }

  function Bytes(v: nat, w: nat): (bs: bytes)
    ensures |bs| == w
  {
    if w == 0 then [] else [v % 256] + Bytes(v / 256, w - 1)
  }

  lemma {:induction false} MulGrows(m: nat, d: nat)
    requires d > 0
    ensures m * d >= m
  {
    if d > 1 {
      MulGrows(m, d - 1);
      assert m * d == m * (d - 1) + m;
    }
  }

  lemma ModIs(v: int, m: nat, q: int, r: int)
    requires v == m * q + r && 0 <= r < m
    ensures v % m == r
  {
    assert m * (q - v / m) == v % m - r;
    var d := q - v / m;
    if d > 0 {
      MulGrows(m, d);
    } else if d < 0 {
      MulGrows(m, -d);
    }
  }

  lemma ModStep(v: nat, p: nat)
    requires p > 0
    ensures v % (256 * p) == v % 256 + 256 * (v / 256 % p)
  {
    var a := v / 256;
    var q := a / p;
    assert v == (256 * p) * q + (v % 256 + 256 * (a % p)) by {
      assert a == p * q + a % p;
      assert v == 256 * a + v % 256;
      assert 256 * (p * q) == (256 * p) * q;
    }
    ModIs(v, 256 * p, q, v % 256 + 256 * (a % p));
  }

  lemma {:induction false} ValueOfBytes(v: nat, w: nat)
    ensures Value(Bytes(v, w)) == v % Pow256(w)
  {
    if w > 0 {
      ValueOfBytes(v / 256, w - 1);
      ModStep(v, Pow256(w - 1));
      assert Bytes(v, w)[1..] == Bytes(v / 256, w - 1);
    }
  }

  lemma {:induction false} ValueBound(bs: bytes)
    ensures Value(bs) < Pow256(|bs|)
  {
    if bs != [] {
      ValueBound(bs[1..]);
    }
  }

  lemma {:induction false} SameValue(a: bytes, b: bytes)
    requires |a| == |b| && Value(a) == Value(b)
    ensures a == b
  {
    if a != [] {
      SameValue(a[1..], b[1..]);
      assert a == [a[0]] + a[1..] && b == [b[0]] + b[1..];
    }
  }

  // ---------- Layout ----------

  /** The three bits of the flags byte that name the header type; 5 to 7 name none. */
  function Tag(m: bytes, s: nat): nat
    requires 0 < s <= |m|
  {
    m[s - 1] % 8
  }

  /** Bytes per field. */
  function Width(tag: nat): nat {
    if tag == 1 then 1 else if tag == 2 then 2 else if tag == 3 then 4 else if tag == 4 then 8 else 0
  }

  /** `s` is the index of the first character; the whole header lies before it. */
  predicate Header(m: bytes, s: nat) {
    0 < s <= |m| && 2 * Width(Tag(m, s)) + 1 <= s
  }

  function LenAt(tag: nat, s: nat): int {
    s - 1 - 2 * Width(tag)
  }

  function AllocAt(tag: nat, s: nat): int {
    s - 1 - Width(tag)
  }

  /** What the length is counted modulo. */
  function Modulus(tag: nat): (m: nat)
    ensures m > 0
  {
    if tag == 0 then 32 else Pow256(Width(tag))
  }

  // ---------- Readers ----------

  /** sdslen */
  function Len(m: bytes, s: nat): nat
    requires Header(m, s)
  {
    var tag := Tag(m, s);
    if tag == 0 then m[s - 1] / 8
    else if tag <= 4 then Value(m[LenAt(tag, s)..AllocAt(tag, s)])
    else 0
  }

  /** sdsalloc */
  function Alloc(m: bytes, s: nat): nat
    requires Header(m, s)
  {
    var tag := Tag(m, s);
    if tag == 0 then m[s - 1] / 8
    else if tag <= 4 then Value(m[AllocAt(tag, s)..s - 1])
    else 0
  }

  /** sdsavail: 8 and 16 bit fields are subtracted as int, 32 bit fields as uint32_t, and then become size_t. */
  function Avail(m: bytes, s: nat): nat
    requires Header(m, s)
  {
    var tag := Tag(m, s);
    if tag == 0 || tag > 4 then 0
    else
      var alloc := Value(m[AllocAt(tag, s)..s - 1]);
      var len := Value(m[LenAt(tag, s)..AllocAt(tag, s)]);
      if tag == 3 then (alloc - len) % TWO_32 else (alloc - len) % TWO_64
  }

  lemma Fields(m: bytes, s: nat)
    requires Header(m, s)
    ensures Len(m, s) < Modulus(Tag(m, s)) && Alloc(m, s) < Modulus(Tag(m, s))
  {
    var tag := Tag(m, s);
    if 0 < tag <= 4 {
      ValueBound(m[LenAt(tag, s)..AllocAt(tag, s)]);
      ValueBound(m[AllocAt(tag, s)..s - 1]);
    }
  }

  lemma Moduli()
    ensures Modulus(1) == 0x100 && Modulus(2) == 0x1_0000 && Modulus(3) == TWO_32 && Modulus(4) == TWO_64
  {
    assert Pow256(1) == 0x100 && Pow256(2) == 0x1_0000;
    assert Pow256(4) == 0x1_0000 * Pow256(2);
    assert Pow256(8) == TWO_32 * Pow256(4);
  }

  lemma Value1(m: bytes, i: nat)
    requires i < |m|
    ensures Value(m[i..i + 1]) == m[i]
  {
    assert m[i..i + 1][1..] == [];
  }

  lemma {:induction false} ValueSplit(a: bytes, b: bytes)
    ensures Value(a + b) == Value(a) + Pow256(|a|) * Value(b)
  {
    if a == [] {
      assert a + b == b;
    } else {
      ValueSplit(a[1..], b);
      assert (a + b)[1..] == a[1..] + b;
      assert 256 * (Pow256(|a| - 1) * Value(b)) == Pow256(|a|) * Value(b);
    }
  }

  /** The number in two, four and eight bytes, byte by byte. */
  lemma Value2(m: bytes, i: nat)
    requires i + 2 <= |m|
    ensures Value(m[i..i + 2]) == m[i] + 0x100 * m[i + 1] as int
  {
    assert m[i..i + 2] == [m[i]] + m[i + 1..i + 2] && m[i..i + 2][1..] == m[i + 1..i + 2];
    Value1(m, i + 1);
  }

  lemma Value4(m: bytes, i: nat)
    requires i + 4 <= |m|
    ensures Value(m[i..i + 4]) == m[i] + 0x100 * m[i + 1] as int + 0x1_0000 * m[i + 2] as int + 0x100_0000 * m[i + 3] as int
  {
    assert m[i..i + 4] == m[i..i + 2] + m[i + 2..i + 4];
    ValueSplit(m[i..i + 2], m[i + 2..i + 4]);
    Moduli();
    Value2(m, i);
    Value2(m, i + 2);
  }

  lemma Value8(m: bytes, i: nat)
    requires i + 8 <= |m|
    ensures Value(m[i..i + 8]) ==
            m[i] + 0x100 * m[i + 1] as int + 0x1_0000 * m[i + 2] as int + 0x100_0000 * m[i + 3] as int
            + TWO_32 * (m[i + 4] + 0x100 * m[i + 5] as int + 0x1_0000 * m[i + 6] as int + 0x100_0000 * m[i + 7] as int)
  {
    assert m[i..i + 8] == m[i..i + 4] + m[i + 4..i + 8];
    ValueSplit(m[i..i + 4], m[i + 4..i + 8]);
    Moduli();
    Value4(m, i);
    Value4(m, i + 4);
  }

  /** The low three bits of the byte in front of the text name the type; the header of type 5 is that byte alone, the
      others have two fields of 1, 2, 4 or 8 bytes before it. */
  lemma HeaderSays(m: bytes, s: nat)
    requires 0 < s <= |m|
    ensures Tag(m, s) == m[s - 1] % 8
    ensures Header(m, s) <==>
            s >= if m[s - 1] % 8 == 1 then 3 else if m[s - 1] % 8 == 2 then 5 else if m[s - 1] % 8 == 3 then 9
                 else if m[s - 1] % 8 == 4 then 17 else 1
  {
  }

  /** The length comes first in the header, little-endian; type 5 has it in the upper bits of its one byte. */
  lemma LenSays(m: bytes, s: nat)
    requires Header(m, s)
    ensures var tag := m[s - 1] % 8;
            && (tag == 0 ==> Len(m, s) == m[s - 1] / 8)
            && (tag == 1 ==> Len(m, s) == m[s - 3])
            && (tag == 2 ==> Len(m, s) == Value(m[s - 5..s - 3]))
            && (tag == 3 ==> Len(m, s) == Value(m[s - 9..s - 5]))
            && (tag == 4 ==> Len(m, s) == Value(m[s - 17..s - 9]))
            && (tag > 4 ==> Len(m, s) == 0)
  {
    if Tag(m, s) == 1 {
      Value1(m, s - 3);
    }
  }

  /** The allocation comes between the length and the flags; type 5 has none and shows its length. */
  lemma AllocSays(m: bytes, s: nat)
    requires Header(m, s)
    ensures var tag := m[s - 1] % 8;
            && (tag == 0 ==> Alloc(m, s) == m[s - 1] / 8)
            && (tag == 1 ==> Alloc(m, s) == m[s - 2])
            && (tag == 2 ==> Alloc(m, s) == Value(m[s - 3..s - 1]))
            && (tag == 3 ==> Alloc(m, s) == Value(m[s - 5..s - 1]))
            && (tag == 4 ==> Alloc(m, s) == Value(m[s - 9..s - 1]))
            && (tag > 4 ==> Alloc(m, s) == 0)
  {
    if Tag(m, s) == 1 {
      Value1(m, s - 2);
    }
  }

  lemma Difference(alloc: nat, len: nat, n: nat)
    requires alloc < n && len < n
    ensures (alloc - len) % n == if len <= alloc then alloc - len else alloc - len + n
  {
    ModIs(alloc - len, n, if len <= alloc then 0 else -1, if len <= alloc then alloc - len else alloc - len + n);
  }

  lemma AvailIs(m: bytes, s: nat)
    requires Header(m, s)
    ensures var wrap := if Tag(m, s) == 3 then TWO_32 else TWO_64;
            Avail(m, s) == Alloc(m, s) - Len(m, s) + if Len(m, s) <= Alloc(m, s) then 0 else wrap
  {
    Fields(m, s);
    Moduli();
    if 0 < Tag(m, s) <= 4 {
      Difference(Alloc(m, s), Len(m, s), if Tag(m, s) == 3 then TWO_32 else TWO_64);
    }
  }

  /** The promise sdsalloc() = sdsavail() + sdslen(), in size_t: it fails exactly for a 32 bit header that
      claims more characters than it has room for. */
  lemma AllocIsAvailPlusLen(m: bytes, s: nat)
    requires Header(m, s)
    ensures Alloc(m, s) == (Avail(m, s) + Len(m, s)) % TWO_64 <==> !(Tag(m, s) == 3 && Len(m, s) > Alloc(m, s))
  {
    Fields(m, s);
    Moduli();
    AvailIs(m, s);
  }

  /** One character in a 32 bit header without room: four gigabytes seem available. */
  lemma AllocPromiseFails(m: bytes)
    requires m == [1, 0, 0, 0, 0, 0, 0, 0, 3]
    ensures Header(m, 9) && Avail(m, 9) == 0xffff_ffff && Alloc(m, 9) != (Avail(m, 9) + Len(m, 9)) % TWO_64
  {
    var len, alloc := m[0..4], m[4..8];
    assert len == [1, 0, 0, 0] && alloc == [0, 0, 0, 0];
    assert len[1..] == [0, 0, 0] && len[1..][1..] == [0, 0] && len[1..][1..][1..] == [0];
    assert alloc[1..] == [0, 0, 0];
    AvailIs(m, 9);
  }

  /** Without wrap-around it holds exactly for a length within bounds. */
  lemma NoUnderflow(m: bytes, s: nat)
    requires Header(m, s)
    ensures Alloc(m, s) == Avail(m, s) + Len(m, s) <==> Len(m, s) <= Alloc(m, s)
  {
    AvailIs(m, s);
  }

  // ---------- Writers ----------

  /** A type 5 header keeps the length in the upper bits of the flags byte. */
  function LenFrom(tag: nat, s: nat): int {
    if tag == 0 then s - 1 else LenAt(tag, s)
  }

  function LenTo(tag: nat, s: nat): int {
    if tag == 0 then s else AllocAt(tag, s)
  }

  /** `m'` is `m` with the length set to `v`, as far as the field holds it, and nothing else changed. */
  ghost predicate LenSet(m': bytes, m: bytes, s: nat, v: nat)
    requires Header(m, s)
  {
    var tag := Tag(m, s);
    && |m'| == |m| && Tag(m', s) == tag
    && Len(m', s) == v % Modulus(tag)
    && forall i :: 0 <= i < |m| && !(LenFrom(tag, s) <= i < LenTo(tag, s)) ==> m'[i] == m[i]
  }

  /** `m'` is `m` with the allocation set to `v`; a type 5 header has none. */
  ghost predicate AllocSet(m': bytes, m: bytes, s: nat, v: nat)
    requires Header(m, s)
  {
    var tag := Tag(m, s);
    && |m'| == |m| && Tag(m', s) == tag
    && (tag != 0 ==> Alloc(m', s) == v % Modulus(tag))
    && forall i :: 0 <= i < |m| && !(AllocAt(tag, s) <= i < s - 1) ==> m'[i] == m[i]
  }

  /** That says it all: there is only one such memory. */
  lemma LenSetUnique(a: bytes, b: bytes, m: bytes, s: nat, v: nat)
    requires Header(m, s) && LenSet(a, m, s, v) && LenSet(b, m, s, v)
    ensures a == b
  {
    var tag := Tag(m, s);
    if 0 < tag <= 4 {
      SameValue(a[LenAt(tag, s)..AllocAt(tag, s)], b[LenAt(tag, s)..AllocAt(tag, s)]);
      assert forall i :: LenAt(tag, s) <= i < AllocAt(tag, s) ==>
               a[i] == a[LenAt(tag, s)..AllocAt(tag, s)][i - LenAt(tag, s)]
               && b[i] == b[LenAt(tag, s)..AllocAt(tag, s)][i - LenAt(tag, s)];
    }
  }

  /** What setting the length means in the numbers of the header types. */
  lemma LenSetSays(m': bytes, m: bytes, s: nat, v: nat)
    requires Header(m, s) && LenSet(m', m, s, v)
    ensures var tag := m[s - 1] % 8;
            var size := if tag == 1 then 0x100 else if tag == 2 then 0x1_0000 else if tag == 3 then TWO_32 else TWO_64;
            && Header(m', s) && |m'| == |m| && m'[s - 1] % 8 == tag
            && (tag == 0 ==> Len(m', s) == v % 32 && Alloc(m', s) == v % 32)
            && (0 < tag <= 4 ==> Len(m', s) == v % size && Alloc(m', s) == Alloc(m, s))
            && (tag > 4 ==> m' == m)
  {
    Moduli();
    var tag := Tag(m, s);
    if 0 < tag <= 4 {
      assert m'[AllocAt(tag, s)..s - 1] == m[AllocAt(tag, s)..s - 1];
    }
  }

  lemma AllocSetSays(m': bytes, m: bytes, s: nat, v: nat)
    requires Header(m, s) && AllocSet(m', m, s, v)
    ensures var tag := m[s - 1] % 8;
            var size := if tag == 1 then 0x100 else if tag == 2 then 0x1_0000 else if tag == 3 then TWO_32 else TWO_64;
            && Header(m', s) && |m'| == |m| && m'[s - 1] == m[s - 1]
            && (0 < tag <= 4 ==> Alloc(m', s) == v % size && Len(m', s) == Len(m, s))
            && (tag == 0 || tag > 4 ==> m' == m)
  {
    Moduli();
    var tag := Tag(m, s);
    if 0 < tag <= 4 {
      assert m'[LenAt(tag, s)..AllocAt(tag, s)] == m[LenAt(tag, s)..AllocAt(tag, s)];
    }
  }

  method Store(mem: array<byte>, at: nat, w: nat, v: nat)
    requires at + w <= mem.Length
    modifies mem
    ensures Value(mem[at..at + w]) == v % Pow256(w)
    ensures forall i :: 0 <= i < mem.Length && !(at <= i < at + w) ==> mem[i] == old(mem[i])
  {
    var bs := Bytes(v, w);
    forall i | at <= i < at + w {
      mem[i] := bs[i - at];
    }
    assert mem[at..at + w] == bs;
    ValueOfBytes(v, w);
  }

  /** Assignment to the length field of the header that the tag names. */
  method StoreLen(mem: array<byte>, s: nat, tag: nat, v: nat)
    requires Header(mem[..], s) && Tag(mem[..], s) == tag && 0 < tag <= 4
    modifies mem
    ensures LenSet(mem[..], old(mem[..]), s, v)
  {
    Store(mem, LenAt(tag, s), Width(tag), v);
    assert mem[..][LenAt(tag, s)..AllocAt(tag, s)] == mem[LenAt(tag, s)..AllocAt(tag, s)];
  }

  method StoreAlloc(mem: array<byte>, s: nat, tag: nat, v: nat)
    requires Header(mem[..], s) && Tag(mem[..], s) == tag && 0 < tag <= 4
    modifies mem
    ensures AllocSet(mem[..], old(mem[..]), s, v)
  {
    Store(mem, AllocAt(tag, s), Width(tag), v);
    assert mem[..][AllocAt(tag, s)..s - 1] == mem[AllocAt(tag, s)..s - 1];
  }

  /** Assignment to the flags byte of a type 5 header. */
  method StoreFlags(mem: array<byte>, s: nat, v: nat)
    requires Header(mem[..], s) && Tag(mem[..], s) == 0
    modifies mem
    ensures LenSet(mem[..], old(mem[..]), s, v)
  {
    mem[s - 1] := v * 8 % 256;
  }

  /** sdssetlen */
  method SetLen(mem: array<byte>, s: nat, newlen: uint64)
    requires Header(mem[..], s)
    modifies mem
    ensures LenSet(mem[..], old(mem[..]), s, newlen)
  {
    var flags := mem[s - 1];
    Moduli();
    match flags % 8
    case 0 => StoreFlags(mem, s, newlen);
    case 1 => StoreLen(mem, s, 1, newlen % 0x100);
    case 2 => StoreLen(mem, s, 2, newlen % 0x1_0000);
    case 3 => StoreLen(mem, s, 3, newlen % TWO_32);
    case 4 => StoreLen(mem, s, 4, newlen);
    case _ =>
  }

  lemma AddMod(x: nat, y: nat, m: nat)
    requires m > 0
    ensures (x + y % m) % m == (x + y) % m
  {
    var z := x + y % m;
    var a, b := z / m, y / m;
    assert m * (a + b) == m * a + m * b;
    ModIs(x + y, m, a + b, z % m);
  }

  lemma ModMod(x: nat, m: nat, k: nat)
    requires m > 0 && k > 0
    ensures x % (m * k) % m == x % m
  {
    var n := m * k;
    var t, y := x / n, x % n;
    var a, b := k * t, y / m;
    assert n * t == m * a;
    assert m * (a + b) == m * a + m * b;
    ModIs(x, m, a + b, y % m);
  }

  /** Cutting the increment and the sum down to a field first makes no difference. */
  lemma SumMod(len: nat, inc: nat, m: nat, k: nat, n: nat)
    requires m > 0 && k > 0 && n == m * k
    ensures (len + inc % m) % m == (len + inc) % n % m
  {
    AddMod(len, inc, m);
    ModMod(len + inc, m, k);
  }

  /** What is assigned to the length, in the arithmetic of each header type. */
  function Incremented(m: bytes, s: nat, inc: uint64): nat
    requires Header(m, s)
  {
    match Tag(m, s)
    case 0 => (m[s - 1] / 8 + inc % 0x100) % 0x100
    case 1 => (Value(m[s - 3..s - 2]) + inc % 0x100) % 0x100
    case 2 => (Value(m[s - 5..s - 3]) + inc % 0x1_0000) % 0x1_0000
    case 3 => (Value(m[s - 9..s - 5]) + inc % TWO_32) % TWO_32
    case 4 => (Value(m[s - 17..s - 9]) + inc) % TWO_64
    case _ => 0
  }

  lemma IncrementedIs(m: bytes, s: nat, inc: uint64)
    requires Header(m, s) && 0 < Tag(m, s) <= 4
    ensures var mod := Modulus(Tag(m, s));
            Incremented(m, s, inc) == (Len(m, s) + inc % mod) % mod
  {
    Moduli();
  }

  /** How often the modulus goes into size_t. */
  function Times(tag: nat): (k: nat)
    ensures k > 0
  {
    if tag == 1 then 0x100_0000_0000_0000
    else if tag == 2 then 0x1_0000_0000_0000
    else if tag == 3 then TWO_32
    else 1
  }

  lemma Increment5(len: nat, inc: uint64)
    ensures (len + inc % 0x100) % 0x100 % 32 == (len + inc) % TWO_64 % 32
  {
    SumMod(len, inc, 0x100, 0x100_0000_0000_0000, TWO_64);
    ModMod((len + inc) % TWO_64, 32, 8);
  }

  lemma IncrementedIsSum(m: bytes, s: nat, inc: uint64)
    requires Header(m, s)
    ensures Incremented(m, s, inc) % Modulus(Tag(m, s)) == (Len(m, s) + inc) % TWO_64 % Modulus(Tag(m, s))
  {
    var tag, mod := Tag(m, s), Modulus(Tag(m, s));
    if tag == 0 {
      Increment5(Len(m, s), inc);
    } else if tag <= 4 {
      IncrementedIs(m, s, inc);
      assert TWO_64 == mod * Times(tag) by {
        Moduli();
      }
      SumMod(Len(m, s), inc, mod, Times(tag), TWO_64);
      ModMod(Len(m, s) + inc % mod, mod, 1);
    }
  }

  lemma LenSetSame(m': bytes, m: bytes, s: nat, v: nat, w: nat)
    requires Header(m, s) && LenSet(m', m, s, v) && v % Modulus(Tag(m, s)) == w % Modulus(Tag(m, s))
    ensures LenSet(m', m, s, w)
  {
  }

  /** sdsinclen: sets the length to the old length and the increment, added as size_t. */
  method IncLen(mem: array<byte>, s: nat, inc: uint64)
    requires Header(mem[..], s)
    modifies mem
    ensures LenSet(mem[..], old(mem[..]), s, (Len(old(mem[..]), s) + inc) % TWO_64)
  {
    IncrementedIsSum(mem[..], s, inc);
    AssignLen(mem, s, Incremented(mem[..], s, inc));
    LenSetSame(mem[..], old(mem[..]), s, Incremented(old(mem[..]), s, inc), (Len(old(mem[..]), s) + inc) % TWO_64);
  }

  method AssignLen(mem: array<byte>, s: nat, newlen: nat)
    requires Header(mem[..], s)
    modifies mem
    ensures LenSet(mem[..], old(mem[..]), s, newlen)
  {
    match mem[s - 1] % 8
    case 0 => StoreFlags(mem, s, newlen);
    case 1 => StoreLen(mem, s, 1, newlen);
    case 2 => StoreLen(mem, s, 2, newlen);
    case 3 => StoreLen(mem, s, 3, newlen);
    case 4 => StoreLen(mem, s, 4, newlen);
    case _ =>
  }

  /** sdssetalloc */
  method SetAlloc(mem: array<byte>, s: nat, newlen: uint64)
    requires Header(mem[..], s)
    modifies mem
    ensures AllocSet(mem[..], old(mem[..]), s, newlen)
  {
    var flags := mem[s - 1];
    Moduli();
    match flags % 8
    case 0 =>
    case 1 => StoreAlloc(mem, s, 1, newlen % 0x100);
    case 2 => StoreAlloc(mem, s, 2, newlen % 0x1_0000);
    case 3 => StoreAlloc(mem, s, 3, newlen % TWO_32);
    case 4 => StoreAlloc(mem, s, 4, newlen);
    case _ =>
  }

  // ---------- Runs ----------

  datatype Op = SetLenTo(v: uint64) | IncLenBy(n: uint64) | SetAllocTo(v: uint64)

  /** The accounts of a string, in exact numbers. */
  datatype Account = Account(tag: nat, len: nat, alloc: nat) {
    /** Type 5 has no allocation of its own. */
    function Room(): nat {
      if tag == 0 then 31 else alloc
    }

    function After(op: Op): Account {
      match op
      case SetLenTo(v) => Account(tag, v, if tag == 0 then v else alloc)
      case IncLenBy(n) => Account(tag, len + n, if tag == 0 then len + n else alloc)
      case SetAllocTo(v) => if tag == 0 then this else Account(tag, len, v)
    }

    /** The call stays in bounds. */
    predicate Fits(op: Op) {
      match op
      case SetLenTo(v) => v <= Room()
      case IncLenBy(n) => len + n <= Room()
      case SetAllocTo(v) => tag == 0 || len <= v < Modulus(tag)
    }

    function AfterAll(ops: seq<Op>): Account
      decreases |ops|
    {
      if ops == [] then this else After(ops[0]).AfterAll(ops[1..])
    }

    predicate AllFit(ops: seq<Op>)
      decreases |ops|
    {
      ops == [] || (Fits(ops[0]) && After(ops[0]).AllFit(ops[1..]))
    }
  }

  function AccountOf(m: bytes, s: nat): Account
    requires Header(m, s)
  {
    Account(Tag(m, s), Len(m, s), Alloc(m, s))
  }

  lemma AccountSays(m: bytes, s: nat, op: Op, ops: seq<Op>)
    requires Header(m, s)
    ensures var a := AccountOf(m, s);
            && a.tag == m[s - 1] % 8 && a.len == Len(m, s) && a.alloc == Alloc(m, s)
            && a.AfterAll([]) == a && a.AfterAll([op] + ops) == a.After(op).AfterAll(ops)
            && a.AllFit([]) && (a.AllFit([op] + ops) <==> a.Fits(op) && a.After(op).AllFit(ops))
  {
    assert ([op] + ops)[1..] == ops;
  }

  /** A length of at most 31 fits into type 5, and one within the allocation into the others; an allocation fits if its
      field holds it and it is no smaller than the length. */
  lemma FitsIff(a: Account, v: uint64)
    requires a.tag <= 4
    ensures a.Fits(SetLenTo(v)) <==> v <= if a.tag == 0 then 31 else a.alloc
    ensures a.Fits(IncLenBy(v)) <==> a.len + v <= if a.tag == 0 then 31 else a.alloc
    ensures a.Fits(SetAllocTo(v)) <==>
              || a.tag == 0
              || (a.len <= v
                  && v < if a.tag == 1 then 0x100 else if a.tag == 2 then 0x1_0000 else if a.tag == 3 then TWO_32 else TWO_64)
    ensures a.After(SetLenTo(v)) == Account(a.tag, v, if a.tag == 0 then v else a.alloc)
    ensures a.After(IncLenBy(v)) == Account(a.tag, a.len + v, if a.tag == 0 then a.len + v else a.alloc)
    ensures a.After(SetAllocTo(v)) == Account(a.tag, a.len, if a.tag == 0 then a.alloc else v)
  {
    Moduli();
  }

  /** Nothing but the header changed. */
  ghost predicate SameText(m': bytes, m: bytes, s: nat)
    requires Header(m, s)
  {
    |m'| == |m| && forall i :: 0 <= i < |m| && !(s - 1 - 2 * Width(Tag(m, s)) <= i < s) ==> m'[i] == m[i]
  }

  lemma LenSetAccount(m': bytes, m: bytes, s: nat, v: uint64)
    requires Header(m, s) && Tag(m, s) <= 4 && LenSet(m', m, s, v) && v < Modulus(Tag(m, s))
    ensures Header(m', s) && AccountOf(m', s) == AccountOf(m, s).After(SetLenTo(v)) && SameText(m', m, s)
  {
    var tag := Tag(m, s);
    assert m'[AllocAt(tag, s)..s - 1] == m[AllocAt(tag, s)..s - 1];
  }

  lemma AllocSetAccount(m': bytes, m: bytes, s: nat, v: uint64)
    requires Header(m, s) && Tag(m, s) <= 4 && AllocSet(m', m, s, v) && (Tag(m, s) != 0 ==> v < Modulus(Tag(m, s)))
    ensures Header(m', s) && AccountOf(m', s) == AccountOf(m, s).After(SetAllocTo(v)) && SameText(m', m, s)
  {
    var tag := Tag(m, s);
    if tag != 0 {
      assert m'[LenAt(tag, s)..AllocAt(tag, s)] == m[LenAt(tag, s)..AllocAt(tag, s)];
    }
  }

  lemma RoomIsBounded(m: bytes, s: nat)
    requires Header(m, s) && Tag(m, s) <= 4
    ensures AccountOf(m, s).Room() < Modulus(Tag(m, s)) <= TWO_64
  {
    Fields(m, s);
    Moduli();
  }

  lemma SetLenFits(m': bytes, m: bytes, s: nat, v: uint64)
    requires Header(m, s) && Tag(m, s) <= 4 && LenSet(m', m, s, v) && AccountOf(m, s).Fits(SetLenTo(v))
    ensures Header(m', s) && AccountOf(m', s) == AccountOf(m, s).After(SetLenTo(v)) && SameText(m', m, s)
  {
    RoomIsBounded(m, s);
    LenSetAccount(m', m, s, v);
  }

  lemma IncLenFits(m': bytes, m: bytes, s: nat, n: uint64)
    requires Header(m, s) && Tag(m, s) <= 4 && LenSet(m', m, s, (Len(m, s) + n) % TWO_64)
    requires AccountOf(m, s).Fits(IncLenBy(n))
    ensures Header(m', s) && AccountOf(m', s) == AccountOf(m, s).After(IncLenBy(n)) && SameText(m', m, s)
  {
    RoomIsBounded(m, s);
    ModIs(Len(m, s) + n, TWO_64, 0, Len(m, s) + n);
    SetLenFits(m', m, s, Len(m, s) + n);
  }

  lemma SetAllocFits(m': bytes, m: bytes, s: nat, v: uint64)
    requires Header(m, s) && Tag(m, s) <= 4 && AllocSet(m', m, s, v) && AccountOf(m, s).Fits(SetAllocTo(v))
    ensures Header(m', s) && AccountOf(m', s) == AccountOf(m, s).After(SetAllocTo(v)) && SameText(m', m, s)
  {
    AllocSetAccount(m', m, s, v);
  }

  method Perform(mem: array<byte>, s: nat, op: Op)
    requires Header(mem[..], s) && Tag(mem[..], s) <= 4 && AccountOf(mem[..], s).Fits(op)
    modifies mem
    ensures Header(mem[..], s) && AccountOf(mem[..], s) == AccountOf(old(mem[..]), s).After(op)
    ensures SameText(mem[..], old(mem[..]), s)
  {
    ghost var m := mem[..];
    match op
    case SetLenTo(v) =>
      SetLen(mem, s, v);
      SetLenFits(mem[..], m, s, v);
    case IncLenBy(n) =>
      IncLen(mem, s, n);
      IncLenFits(mem[..], m, s, n);
    case SetAllocTo(v) =>
      SetAlloc(mem, s, v);
      SetAllocFits(mem[..], m, s, v);
  }

  lemma StaysInBounds(a: Account, op: Op)
    requires a.Fits(op) && a.len <= a.alloc && (a.tag == 0 ==> a.len == a.alloc)
    ensures var b := a.After(op); b.tag == a.tag && b.len <= b.alloc && (b.tag == 0 ==> b.len == b.alloc)
  {
  }

  /** A run of calls in bounds keeps exact accounts: no field ever wraps around, what is available never
      underflows, and the text is left alone. */
  method Run(mem: array<byte>, s: nat, ops: seq<Op>)
    requires Header(mem[..], s) && Tag(mem[..], s) <= 4 && Len(mem[..], s) <= Alloc(mem[..], s)
    requires AccountOf(mem[..], s).AllFit(ops)
    modifies mem
    ensures Header(mem[..], s) && AccountOf(mem[..], s) == AccountOf(old(mem[..]), s).AfterAll(ops)
    ensures SameText(mem[..], old(mem[..]), s)
    ensures Len(mem[..], s) <= Alloc(mem[..], s) && Alloc(mem[..], s) == Avail(mem[..], s) + Len(mem[..], s)
  {
    ghost var start := AccountOf(mem[..], s);
    for i := 0 to |ops|
      invariant Header(mem[..], s) && SameText(mem[..], old(mem[..]), s)
      invariant Tag(mem[..], s) == start.tag && Len(mem[..], s) <= Alloc(mem[..], s)
      invariant AccountOf(mem[..], s).AllFit(ops[i..])
      invariant AccountOf(mem[..], s).AfterAll(ops[i..]) == start.AfterAll(ops)
    {
      assert ops[i..][1..] == ops[i + 1..];
      StaysInBounds(AccountOf(mem[..], s), ops[i]);
      Perform(mem, s, ops[i]);
    }
    NoUnderflow(mem[..], s);
  }
}
