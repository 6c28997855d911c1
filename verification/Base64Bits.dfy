/** The regrouping of bytes into sextets, read as strings of bits. */
module Base64Bits {
  import opened Base64
  import opened Primitives

  /** Bit k of x, counted from the least significant. */
  function Bit(x: nat, k: nat): nat {
    if k == 0 then x % 2 else Bit(x / 2, k - 1)
  }

  function Power2(w: nat): (p: nat)
    ensures p > 0
  {
    if w == 0 then 1 else 2 * Power2(w - 1)
  }

  /** Bit i of the bytes, most significant bit of the first byte first. */
  function ByteBit(b: seq<Byte>, i: nat): int
    requires i < 8 * |b|
  {
    Bit(b[i / 8], 7 - i % 8)
  }

  function SextetBit(s: seq<Sextet>, i: nat): int
    requires i < 6 * |s|
  {
    Bit(s[i / 6], 5 - i % 6)
  }

  /** RFC 4648, section 4: the groups spell the bytes' bits, then fewer than six zero bits. */
  ghost predicate SameBitsZeroPadded(s: seq<Sextet>, b: seq<Byte>) {
    && 6 * |s| - 6 < 8 * |b| <= 6 * |s|
    && (forall i: nat | i < 8 * |b| :: SextetBit(s, i) == ByteBit(b, i))
    && (forall i: nat | 8 * |b| <= i < 6 * |s| :: SextetBit(s, i) == 0)
  }

  /** The low w bits of high * 2^w + low are those of low, the rest those of high. */
  lemma {:induction false} JoinedBits(high: nat, low: nat, w: nat, k: nat)
    requires low < Power2(w)
    ensures Bit(high * Power2(w) + low, k) == if k < w then Bit(low, k) else Bit(high, k - w)
  {
    if w > 0 {
      var shifted := high * Power2(w - 1);
      assert high * Power2(w) == 2 * shifted;
      assert (2 * shifted + low) / 2 == shifted + low / 2;
      assert (2 * shifted + low) % 2 == low % 2;
      if k > 0 { JoinedBits(high, low / 2, w - 1, k - 1); }
    }
  }

  lemma GroupBits01(x: Byte, y: Byte, k: int)
    requires 0 <= k < 6
    ensures Bit(Group0(x), k) == Bit(x, k + 2)
    ensures Bit(Group1(x, y), k) == if k < 4 then Bit(y, k + 4) else Bit(x, k - 4)
  {
    hide Bit;
    assert Power2(2) == 4;
    assert Power2(4) == 4 * Power2(2);
    JoinedBits(x / 4, x % 4, 2, k + 2);
    JoinedBits(y / 16, y % 16, 4, k + 4);
    JoinedBits(x % 4, y / 16, 4, k);
    if k >= 4 { JoinedBits(x / 4, x % 4, 2, k - 4); }
  }

  lemma GroupBits23(y: Byte, z: Byte, k: int)
    requires 0 <= k < 6
    ensures Bit(Group2(y, z), k) == if k < 2 then Bit(z, k + 6) else Bit(y, k - 2)
    ensures Bit(Group3(z), k) == Bit(z, k)
  {
    hide Bit;
    assert Power2(2) == 4;
    assert Power2(4) == 4 * Power2(2);
    assert Power2(6) == 4 * Power2(4);
    JoinedBits(z / 64, z % 64, 6, k);
    JoinedBits(z / 64, z % 64, 6, k + 6);
    JoinedBits(y % 16, z / 64, 2, k);
    if k >= 2 { JoinedBits(y / 16, y % 16, 4, k - 2); }
  }

  lemma GroupOfZeros(x: Byte, k: int)
    requires 0 <= k < 6
    ensures k < 4 ==> Bit(Group1(x, 0), k) == 0
    ensures k < 2 ==> Bit(Group2(x, 0), k) == 0
  {
    hide Bit;
    GroupBits01(x, 0, k);
    GroupBits23(x, 0, k);
    ZeroBit(k + 4);
    ZeroBit(k + 6);
  }

  lemma {:induction false} ZeroBit(k: nat)
    ensures Bit(0, k) == 0
  {
    if k > 0 { ZeroBit(k - 1); }
  }

  lemma UnpackHead(b: seq<Byte>, y: Byte, z: Byte)
    requires b != [] && y == (if |b| > 1 then b[1] else 0) && z == (if |b| > 2 then b[2] else 0)
    ensures |b| <= 2 ==> |Unpack(b)| == |b| + 1
    ensures |Unpack(b)| >= 2 && Unpack(b)[0] == Group0(b[0]) && Unpack(b)[1] == Group1(b[0], y)
    ensures |Unpack(b)| > 2 ==> Unpack(b)[2] == Group2(y, z)
    ensures |Unpack(b)| > 3 ==> Unpack(b)[3] == Group3(z)
  {
    hide Group0, Group1, Group2, Group3;
  }

  lemma FirstBits(b: seq<Byte>, i: nat)
    requires b != [] && i < 24 && i < 6 * |Unpack(b)|
    ensures SextetBit(Unpack(b), i) == if i < 8 * |b| then ByteBit(b, i) else 0
  {
    hide Bit, Group0, Group1, Group2, Group3, Unpack;
    var y, z := if |b| > 1 then b[1] else 0, if |b| > 2 then b[2] else 0;
    var g, k := i / 6, 5 - i % 6;
    UnpackHead(b, y, z);
    GroupBits01(b[0], y, k);
    GroupBits23(y, z, k);
    GroupOfZeros(b[0], k);
    GroupOfZeros(y, k);
    if i < 8 * |b| { assert ByteBit(b, i) == Bit(b[i / 8], 7 - i % 8); }
    if g == 0 {
      assert i / 8 == 0;
    } else if g == 1 {
      assert i / 8 == if k < 4 then 1 else 0;
    } else if g == 2 {
      assert i / 8 == if k < 2 then 2 else 1;
    } else {
      assert g == 3 && i / 8 == 2;
    }
  }

  lemma GroupsLength(x: Byte, y: Byte, z: Byte)
    ensures |Groups(x, y, z)| == 4
  {
  }

  lemma LaterBits(b: seq<Byte>, i: nat)
    requires |b| >= 3 && 24 <= i < 6 * |Unpack(b)|
    ensures i - 24 < 6 * |Unpack(b[3..])|
    ensures SextetBit(Unpack(b), i) == SextetBit(Unpack(b[3..]), i - 24)
    ensures i < 8 * |b| ==> ByteBit(b, i) == ByteBit(b[3..], i - 24)
  {
    hide Bit, Unpack, Groups;
    UnpackStep(b);
    var j := i - 24;
    assert i / 6 == j / 6 + 4 && i % 6 == j % 6;
    assert i / 8 == j / 8 + 3 && i % 8 == j % 8;
    GroupsLength(b[0], b[1], b[2]);
  }

  lemma {:induction false} UnpackLength(b: seq<Byte>)
    ensures 6 * |Unpack(b)| - 6 < 8 * |b| <= 6 * |Unpack(b)|
  {
    if |b| >= 3 { UnpackLength(b[3..]); }
  }

  lemma {:induction false} UnpackSpellsBits(b: seq<Byte>)
    ensures SameBitsZeroPadded(Unpack(b), b)
    decreases |b|
  {
    hide Bit, Unpack;
    var s := Unpack(b);
    UnpackLength(b);
    if |b| >= 3 { UnpackSpellsBits(b[3..]); }
    forall i: nat | i < 6 * |s| ensures SextetBit(s, i) == if i < 8 * |b| then ByteBit(b, i) else 0 {
      if i < 24 { FirstBits(b, i); } else { LaterBits(b, i); }
    }
  }

  // ----- The alphabets -----

  /** RFC 4648, tables 1 and 2: the symbols run from A to Z, a to z and 0 to 9, then the last two. */
  lemma SymbolTable(a: Alphabet)
    ensures Symbol(a, 0) == 'A' && Symbol(a, 25) == 'Z' && Symbol(a, 26) == 'a' && Symbol(a, 51) == 'z'
    ensures Symbol(a, 52) == '0' && Symbol(a, 61) == '9'
    ensures a == Standard ==> Symbol(a, 62) == '+' && Symbol(a, 63) == '/'
    ensures a == UrlSafe ==> Symbol(a, 62) == '-' && Symbol(a, 63) == '_'
    ensures forall v: Sextet | v < 61 && v != 25 && v != 51 :: Symbol(a, v + 1) as int == Symbol(a, v) as int + 1
  {
  }
}
