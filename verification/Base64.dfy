/** The canonical base64 and base64url decoders for secret material (runtime-security.ts),
    against the encoding of RFC 4648, sections 3.5, 4 and 5. */
module Base64 {
  import opened Outcomes
  import opened Primitives
  import opened Sequences

  type Sextet = v: int | 0 <= v < 64

  datatype Alphabet = Standard | UrlSafe

  // ----- Symbols -----

  function Symbol(a: Alphabet, v: Sextet): char {
    if v < 26 then ('A' as int + v) as char
    else if v < 52 then ('a' as int + v - 26) as char
    else if v < 62 then ('0' as int + v - 52) as char
    else if v == 62 then (if a.Standard? then '+' else '-')
    else (if a.Standard? then '/' else '_')
  }

  function SymbolValue(a: Alphabet, c: char): (v: Option<Sextet>)
    ensures v.Some? ==> Symbol(a, v.value) == c
  {
    if 'A' <= c <= 'Z' then Some(c as int - 'A' as int)
    else if 'a' <= c <= 'z' then Some(c as int - 'a' as int + 26)
    else if '0' <= c <= '9' then Some(c as int - '0' as int + 52)
    else if c == Symbol(a, 62) then Some(62)
    else if c == Symbol(a, 63) then Some(63)
    else None
  }

  lemma SymbolValueOfSymbol(a: Alphabet, v: Sextet)
    ensures SymbolValue(a, Symbol(a, v)) == Some(v)
    ensures Symbol(a, v) != '='
  {
  }

  predicate AllSymbols(a: Alphabet, text: string) {
    forall i | 0 <= i < |text| :: SymbolValue(a, text[i]).Some?
  }

  function Values(a: Alphabet, text: string): (s: seq<Sextet>)
    requires AllSymbols(a, text)
    ensures |s| == |text|
    ensures forall i | 0 <= i < |text| :: SymbolValue(a, text[i]) == Some(s[i])
  {
    seq(|text|, i requires 0 <= i < |text| => SymbolValue(a, text[i]).value)
  }

  function Symbols(a: Alphabet, s: seq<Sextet>): (text: string)
    ensures |text| == |s| && forall i | 0 <= i < |s| :: text[i] == Symbol(a, s[i])
  {
    seq(|s|, i requires 0 <= i < |s| => Symbol(a, s[i]))
  }

  lemma ValuesOfSymbols(a: Alphabet, s: seq<Sextet>)
    ensures AllSymbols(a, Symbols(a, s)) && Values(a, Symbols(a, s)) == s
  {
    var text := Symbols(a, s);
    forall i | 0 <= i < |s| ensures SymbolValue(a, text[i]) == Some(s[i]) { SymbolValueOfSymbol(a, s[i]); }
  }

  // ----- Regrouping bits -----

  // The four groups of three bytes, and back.
  function Group0(x: int): Sextet requires 0 <= x < 256 { x / 4 }
  function Group1(x: int, y: int): Sextet requires 0 <= x < 256 && 0 <= y < 256 { x % 4 * 16 + y / 16 }
  function Group2(y: int, z: int): Sextet requires 0 <= y < 256 && 0 <= z < 256 { y % 16 * 4 + z / 64 }
  function Group3(z: int): Sextet requires 0 <= z < 256 { z % 64 }
  function Byte0(p: int, q: int): Byte requires 0 <= p < 64 && 0 <= q < 64 { p * 4 + q / 16 }
  function Byte1(q: int, r: int): Byte requires 0 <= q < 64 && 0 <= r < 64 { q % 16 * 16 + r / 4 }
  function Byte2(r: int, t: int): Byte requires 0 <= r < 64 && 0 <= t < 64 { r % 4 * 64 + t }

  function Groups(x: Byte, y: Byte, z: Byte): seq<Sextet> {
    [Group0(x), Group1(x, y), Group2(y, z), Group3(z)]
  }

  function Bytes(s: seq<Sextet>): (b: seq<Byte>)
    requires |s| == 4
    ensures |b| == 3
  {
    [Byte0(s[0], s[1]), Byte1(s[1], s[2]), Byte2(s[2], s[3])]
  }

  /** Bytes to 6-bit groups; missing low bits of the last group are zero. */
  function Unpack(b: seq<Byte>): (s: seq<Sextet>)
    ensures |s| % 4 != 1 && (s == [] <==> b == [])
  {
    if |b| == 0 then []
    else if |b| == 1 then Groups(b[0], 0, 0)[..2]
    else if |b| == 2 then Groups(b[0], b[1], 0)[..3]
    else Groups(b[0], b[1], b[2]) + Unpack(b[3..])
  }

  /** 6-bit groups to bytes; surplus low bits of the last group are dropped. */
  function Pack(s: seq<Sextet>): (b: seq<Byte>)
    requires |s| % 4 != 1
    ensures b == [] <==> s == []
  {
    if |s| == 0 then []
    else if |s| == 2 then Bytes(s + [0, 0])[..1]
    else if |s| == 3 then Bytes(s + [0])[..2]
    else Bytes(s[..4]) + Pack(s[4..])
  }

  /** Bits of the last group beyond the last whole byte. */
  predicate UnusedBitsZero(s: seq<Sextet>) {
    && (|s| % 4 == 2 ==> s[|s| - 1] % 16 == 0)
    && (|s| % 4 == 3 ==> s[|s| - 1] % 4 == 0)
  }

  lemma DivMod(u: nat, v: nat, m: nat)
    requires v < m && (m == 4 || m == 16 || m == 64)
    ensures (u * m + v) / m == u && (u * m + v) % m == v
  {
    if m == 4 {} else if m == 16 {} else {}
  }

  lemma BytesOfGroups(x: Byte, y: Byte, z: Byte)
    ensures Bytes(Groups(x, y, z)) == [x, y, z]
  {
    FirstByte(x, y);
    SecondByte(y, x, z);
    ThirdByte(z, y);
    hide Group0, Group1, Group2, Group3, Byte0, Byte1, Byte2;
  }

  lemma FirstByte(x: Byte, y: Byte)
    ensures Byte0(Group0(x), Group1(x, y)) == x
  {
    DivMod(x % 4, y / 16, 16);
  }

  lemma SecondByte(y: Byte, x: Byte, z: Byte)
    ensures Byte1(Group1(x, y), Group2(y, z)) == y
  {
    DivMod(x % 4, y / 16, 16);
    DivMod(y % 16, z / 64, 4);
  }

  lemma ThirdByte(z: Byte, y: Byte)
    ensures Byte2(Group2(y, z), Group3(z)) == z
  {
    DivMod(y % 16, z / 64, 4);
  }

  lemma GroupsOfBytes01(p: Sextet, q: Sextet, r: Sextet)
    ensures Group0(Byte0(p, q)) == p
    ensures Group1(Byte0(p, q), Byte1(q, r)) == q
  {
    DivMod(p, q / 16, 4);
    DivMod(q % 16, r / 4, 16);
  }

  lemma GroupsOfBytes23(q: Sextet, r: Sextet, t: Sextet)
    ensures Group2(Byte1(q, r), Byte2(r, t)) == r
    ensures Group3(Byte2(r, t)) == t
  {
    DivMod(q % 16, r / 4, 16);
    DivMod(r % 4, t, 64);
  }

  lemma GroupsOfBytes(p: Sextet, q: Sextet, r: Sextet, t: Sextet)
    ensures Groups(Byte0(p, q), Byte1(q, r), Byte2(r, t)) == [p, q, r, t]
  {
    hide Group0, Group1, Group2, Group3, Byte0, Byte1, Byte2;
    GroupsOfBytes01(p, q, r);
    GroupsOfBytes23(q, r, t);
  }

  /** Cutting a final block short loses exactly its low bits. */
  lemma CutGroups(p: Sextet, q: Sextet, r: Sextet)
    ensures Group1(Byte0(p, q), 0) == q - q % 16
    ensures Group2(Byte1(q, r), 0) == r - r % 4
  {
    DivMod(p, q / 16, 4);
    DivMod(q % 16, r / 4, 16);
  }

  lemma UnpackStep(b: seq<Byte>)
    requires |b| >= 3
    ensures Unpack(b) == Groups(b[0], b[1], b[2]) + Unpack(b[3..])
  {
    hide Groups, Group0, Group1, Group2, Group3, Bytes, Pack;
    var first, rest := Groups(b[0], b[1], b[2]), Unpack(b[3..]);
    assert Unpack(b) == first + rest;
  }

  lemma PackStep(block: seq<Sextet>, rest: seq<Sextet>)
    requires |block| == 4 && |rest| % 4 != 1
    ensures |block + rest| % 4 != 1 && Pack(block + rest) == Bytes(block) + Pack(rest)
  {
    hide Bytes;
    var s := block + rest;
    assert s[..4] == block && s[4..] == rest;
  }

  lemma UnusedBitsStep(block: seq<Sextet>, rest: seq<Sextet>)
    requires |block| == 4 && |rest| % 4 != 1
    ensures UnusedBitsZero(block + rest) <==> UnusedBitsZero(rest)
  {
    var s := block + rest;
    FourMore(|rest|);
    assert |s| == 4 + |rest|;
    if rest != [] { assert s[|s| - 1] == rest[|rest| - 1]; }
  }

  lemma FourMore(n: nat)
    ensures (4 + n) % 4 == n % 4
  {
  }

  lemma CutGroupsZero(x: Byte, y: Byte)
    ensures Group1(x, 0) % 16 == 0 && Group2(y, 0) % 4 == 0
  {
    DivMod(x % 4, 0, 16);
    DivMod(y % 16, 0, 4);
  }

  lemma PackUnpackOne(x: Byte)
    ensures Pack(Unpack([x])) == [x] && UnusedBitsZero(Unpack([x]))
  {
    hide Group0, Group1, Group2, Group3, Bytes;
    BytesOfGroups(x, 0, 0);
    CutGroupsZero(x, 0);
    assert Groups(x, 0, 0)[..2] + [0, 0] == Groups(x, 0, 0) by { ZeroGroups(0); }
  }

  lemma PackUnpackTwo(x: Byte, y: Byte)
    ensures Pack(Unpack([x, y])) == [x, y] && UnusedBitsZero(Unpack([x, y]))
  {
    hide Group0, Group1, Group2, Group3, Bytes;
    BytesOfGroups(x, y, 0);
    CutGroupsZero(x, y);
    assert Groups(x, y, 0)[..3] + [0] == Groups(x, y, 0) by { ZeroGroups(0); }
  }

  lemma PackUnpackEmpty()
    ensures Pack(Unpack([])) == [] && UnusedBitsZero(Unpack([]))
  {
  }

  lemma ZeroGroups(z: Byte)
    requires z == 0
    ensures Group2(z, z) == 0 && Group3(z) == 0
  {
  }

  lemma {:induction false} PackUnpack(b: seq<Byte>)
    ensures Pack(Unpack(b)) == b
    ensures UnusedBitsZero(Unpack(b))
    decreases |b|, 1
  {
    hide Unpack, Pack, UnusedBitsZero;
    if |b| == 1 {
      assert b == [b[0]];
      PackUnpackOne(b[0]);
    } else if |b| == 2 {
      assert b == [b[0], b[1]];
      PackUnpackTwo(b[0], b[1]);
    } else if |b| >= 3 {
      PackUnpackMore(b);
    } else {
      assert b == [];
      PackUnpackEmpty();
    }
  }

  lemma {:induction false} PackUnpackMore(b: seq<Byte>)
    requires |b| >= 3
    ensures Pack(Unpack(b)) == b
    ensures UnusedBitsZero(Unpack(b))
    decreases |b|, 0
  {
    hide Group0, Group1, Group2, Group3, Bytes, Unpack, Pack, UnusedBitsZero;
    var block, rest := Groups(b[0], b[1], b[2]), Unpack(b[3..]);
    PackUnpack(b[3..]);
    UnpackStep(b);
    PackStep(block, rest);
    UnusedBitsStep(block, rest);
    BytesOfGroups(b[0], b[1], b[2]);
    assert b == [b[0], b[1], b[2]] + b[3..];
  }

  lemma LastGroups(x: Byte, p: Sextet, q: Sextet)
    ensures Unpack([x]) == [Group0(x), Group1(x, 0)] && Pack([p, q]) == [Byte0(p, q)]
  {
    hide Group0, Group1, Group2, Group3, Byte0, Byte1, Byte2;
  }

  lemma UnpackPackThree(p: Sextet, q: Sextet, r: Sextet)
    ensures Unpack(Pack([p, q, r])) == [p, q, r] <==> r % 4 == 0
  {
    hide Group0, Group1, Group2, Group3, Byte0, Byte1, Byte2;
    assert Pack([p, q, r]) == [Byte0(p, q), Byte1(q, r)];
    CutGroups(p, q, r);
    GroupsOfBytes01(p, q, r);
  }

  lemma {:induction false} UnpackPack(s: seq<Sextet>)
    requires |s| % 4 != 1
    ensures Unpack(Pack(s)) == s <==> UnusedBitsZero(s)
    decreases |s|, 1
  {
    hide Unpack, Pack, Group0, Group1, Group2, Group3, Byte0, Byte1, Byte2;
    if |s| == 2 {
      assert s == [s[0], s[1]];
      LastGroups(Byte0(s[0], s[1]), s[0], s[1]);
      CutGroups(s[0], s[1], 0);
      GroupsOfBytes01(s[0], s[1], 0);
    } else if |s| == 3 {
      assert s == [s[0], s[1], s[2]];
      UnpackPackThree(s[0], s[1], s[2]);
    } else if |s| >= 4 {
      UnpackPackMore(s[..4], s[4..]);
      assert s == s[..4] + s[4..];
    } else {
      assert s == [];
    }
  }

  lemma {:induction false} UnpackPackMore(block: seq<Sextet>, rest: seq<Sextet>)
    requires |block| == 4 && |rest| % 4 != 1
    ensures Unpack(Pack(block + rest)) == block + rest <==> UnusedBitsZero(block + rest)
    decreases |block + rest|, 0
  {
    hide Byte0, Byte1, Byte2, Groups, Unpack, Pack, UnusedBitsZero;
    UnpackPack(rest);
    PackStep(block, rest);
    UnusedBitsStep(block, rest);
    GroupsOfBytes(block[0], block[1], block[2], block[3]);
    assert block == [block[0], block[1], block[2], block[3]];
    var b := Bytes(block) + Pack(rest);
    UnpackStep(b);
    assert b[3..] == Pack(rest);
    assert block + Unpack(Pack(rest)) == block + rest ==> Unpack(Pack(rest)) == rest by {
      assert (block + Unpack(Pack(rest)))[4..] == Unpack(Pack(rest)) && (block + rest)[4..] == rest;
    }
  }

  // ----- Text -----

  function Padding(length: nat): string { seq((4 - length % 4) % 4, _ => '=') }

  /** RFC 4648, section 4 (with padding) or section 5 without it. */
  function EncodeBare(a: Alphabet, b: seq<Byte>): string { Symbols(a, Unpack(b)) }

  function EncodePadded(a: Alphabet, b: seq<Byte>): string {
    EncodeBare(a, b) + Padding(|Unpack(b)|)
  }

  /** The text without its trailing '=' characters. */
  function StripPadding(text: string): (bare: string)
    ensures bare <= text && (bare == [] || bare[|bare| - 1] != '=')
    ensures forall i | |bare| <= i < |text| :: text[i] == '='
  {
    if text == [] || text[|text| - 1] != '=' then text else StripPadding(text[..|text| - 1])
  }

  /** Buffer.from on symbols followed only by padding: surplus bits are dropped silently. */
  function BufferFrom(a: Alphabet, text: string): seq<Byte>
    requires AllSymbols(a, StripPadding(text)) && |StripPadding(text)| % 4 != 1
  {
    Pack(Values(a, StripPadding(text)))
  }

  function DecodeCanonicalBase64(value: string): Option<seq<Byte>> {
    var unpadded := StripPadding(value);
    if unpadded == [] || |value| - |unpadded| > 2 || !AllSymbols(Standard, unpadded) then None
    else if |unpadded| % 4 == 1 then None
    else
      var canonicalPadded := unpadded + Padding(|unpadded|);
      if '=' in value && value != canonicalPadded then None
      else
        StripOfCanonical(unpadded);
        var decoded := BufferFrom(Standard, canonicalPadded);
        if EncodePadded(Standard, decoded) == canonicalPadded then Some(decoded) else None
  }

  function DecodeCanonicalBase64Url(value: string): Option<seq<Byte>> {
    if value == [] || !AllSymbols(UrlSafe, value) || |value| % 4 == 1 then None
    else
      StripOfSymbols(UrlSafe, value);
      var decoded := BufferFrom(UrlSafe, value);
      if EncodeBare(UrlSafe, decoded) == value then Some(decoded) else None
  }

  lemma {:induction false} StripOfPadded(bare: string, n: nat)
    requires bare == [] || bare[|bare| - 1] != '='
    ensures StripPadding(bare + seq(n, _ => '=')) == bare
  {
    var text := bare + seq(n, _ => '=');
    if n > 0 {
      assert text[..|text| - 1] == bare + seq(n - 1, _ => '=');
      StripOfPadded(bare, n - 1);
    } else {
      assert text == bare;
    }
  }

  lemma StripOfCanonical(bare: string)
    requires bare == [] || bare[|bare| - 1] != '='
    ensures StripPadding(bare + Padding(|bare|)) == bare
  {
    StripOfPadded(bare, (4 - |bare| % 4) % 4);
  }

  lemma StripOfSymbols(a: Alphabet, text: string)
    requires AllSymbols(a, text)
    ensures '=' !in text && StripPadding(text) == text
  {
    forall i | 0 <= i < |text| ensures text[i] != '=' {
      SymbolValueOfSymbol(a, SymbolValue(a, text[i]).value);
    }
  }

  lemma EncodedIsSymbols(a: Alphabet, b: seq<Byte>)
    ensures AllSymbols(a, EncodeBare(a, b)) && Values(a, EncodeBare(a, b)) == Unpack(b)
    ensures |EncodeBare(a, b)| % 4 != 1 && (EncodeBare(a, b) == [] <==> b == [])
  {
    ValuesOfSymbols(a, Unpack(b));
  }

  /** Re-encoding the decoded bytes gives the symbols back exactly when no surplus bit was set. */
  lemma ReencodeBare(a: Alphabet, bare: string)
    requires AllSymbols(a, bare) && |bare| % 4 != 1
    ensures EncodeBare(a, Pack(Values(a, bare))) == bare <==> UnusedBitsZero(Values(a, bare))
  {
    var s := Values(a, bare);
    UnpackPack(s);
    if EncodeBare(a, Pack(s)) == bare { EncodedIsSymbols(a, Pack(s)); }
  }

  /** Accepted spellings: nonempty, in the alphabet, zero surplus bits, padding complete or absent. */
  ghost predicate CanonicalSpelling(value: string) {
    var bare := StripPadding(value);
    && bare != [] && AllSymbols(Standard, bare) && |bare| % 4 != 1
    && UnusedBitsZero(Values(Standard, bare))
    && (value == bare || (|value| % 4 == 0 && |value| - |bare| <= 2))
  }

  lemma PadLength(n: nat, d: nat)
    requires n % 4 != 1
    ensures d == (4 - n % 4) % 4 <==> (n + d) % 4 == 0 && d <= 2
  {
    var q, r := n / 4, n % 4;
    if d <= 2 { assert n + d == 4 * q + (r + d); }
  }

  lemma PaddedLength(value: string, bare: string)
    requires bare == StripPadding(value) && |bare| % 4 != 1
    ensures value == bare + Padding(|bare|) <==> |value| % 4 == 0 && |value| - |bare| <= 2
  {
    hide StripPadding;
    PadLength(|bare|, |value| - |bare|);
    var padded := bare + Padding(|bare|);
    assert |Padding(|bare|)| == (4 - |bare| % 4) % 4;
    if |value| == |padded| {
      forall i | 0 <= i < |value| ensures value[i] == padded[i] {}
    }
  }

  lemma AcceptsCanonicalSpellings(value: string)
    ensures DecodeCanonicalBase64(value).Some? <==> CanonicalSpelling(value)
    ensures CanonicalSpelling(value) ==>
      DecodeCanonicalBase64(value) == Some(Pack(Values(Standard, StripPadding(value))))
  {
    var bare := StripPadding(value);
    if bare != [] && AllSymbols(Standard, bare) && |bare| % 4 != 1 {
      StripOfSymbols(Standard, bare);
      PaddedLength(value, bare);
      StripOfCanonical(bare);
      ReencodeBare(Standard, bare);
      var decoded := Pack(Values(Standard, bare));
      SamePadding(decoded, bare);
    }
  }

  lemma SamePadding(b: seq<Byte>, bare: string)
    requires '=' !in bare
    ensures EncodePadded(Standard, b) == bare + Padding(|bare|) <==> EncodeBare(Standard, b) == bare
  {
    hide Unpack, Symbols, AllSymbols;
    EncodedIsSymbols(Standard, b);
    var own := EncodeBare(Standard, b);
    StripOfSymbols(Standard, own);
    StripOfCanonical(own);
    StripOfCanonical(bare);
    assert EncodePadded(Standard, b) == own + Padding(|own|);
  }

  lemma StripOfEncodings(b: seq<Byte>)
    ensures StripPadding(EncodeBare(Standard, b)) == EncodeBare(Standard, b)
    ensures StripPadding(EncodePadded(Standard, b)) == EncodeBare(Standard, b)
    ensures EncodePadded(Standard, b) == EncodeBare(Standard, b) + Padding(|EncodeBare(Standard, b)|)
  {
    hide Unpack;
    var own := EncodeBare(Standard, b);
    EncodedIsSymbols(Standard, b);
    StripOfSymbols(Standard, own);
    StripOfCanonical(own);
  }

  lemma AcceptsEncodings(value: string, b: seq<Byte>)
    requires b != [] && (value == EncodeBare(Standard, b) || value == EncodePadded(Standard, b))
    ensures DecodeCanonicalBase64(value) == Some(b)
  {
    hide Unpack, Pack, UnusedBitsZero, Padding, DecodeCanonicalBase64, EncodePadded, AllSymbols;
    var own := EncodeBare(Standard, b);
    StripOfEncodings(b);
    EncodedIsSymbols(Standard, b);
    PackUnpack(b);
    PaddedLength(value, own);
    AcceptsCanonicalSpellings(value);
  }

  /** The decoder inverts the RFC encoder and nothing else: a text decodes to b exactly when
      it is b's encoding, with the padding complete or left out. */
  lemma DecodesExactlyEncodings(value: string, b: seq<Byte>)
    ensures DecodeCanonicalBase64(value) == Some(b) <==>
      b != [] && (value == EncodeBare(Standard, b) || value == EncodePadded(Standard, b))
  {
    hide Unpack, Pack, UnusedBitsZero, Padding, DecodeCanonicalBase64, AllSymbols;
    if DecodeCanonicalBase64(value) == Some(b) {
      var bare := StripPadding(value);
      AcceptsCanonicalSpellings(value);
      ReencodeBare(Standard, bare);
      PaddedLength(value, bare);
      StripOfEncodings(b);
    }
    if b != [] && (value == EncodeBare(Standard, b) || value == EncodePadded(Standard, b)) {
      AcceptsEncodings(value, b);
    }
  }

  lemma UrlDecodesExactlyEncodings(value: string, b: seq<Byte>)
    ensures DecodeCanonicalBase64Url(value) == Some(b) <==> b != [] && value == EncodeBare(UrlSafe, b)
  {
    if AllSymbols(UrlSafe, value) && value != [] && |value| % 4 != 1 {
      StripOfSymbols(UrlSafe, value);
      ReencodeBare(UrlSafe, value);
    }
    EncodedIsSymbols(UrlSafe, b);
    PackUnpack(b);
  }

  /** Different spellings of one secret differ in padding only. */
  lemma SpellingUnique(first: string, second: string)
    ensures DecodeCanonicalBase64(first).Some? && DecodeCanonicalBase64(first) == DecodeCanonicalBase64(second) ==>
      StripPadding(first) == StripPadding(second)
  {
    hide DecodeCanonicalBase64, EncodePadded, EncodeBare;
    if DecodeCanonicalBase64(first).Some? && DecodeCanonicalBase64(first) == DecodeCanonicalBase64(second) {
      var b := DecodeCanonicalBase64(first).value;
      DecodesExactlyEncodings(first, b);
      DecodesExactlyEncodings(second, b);
      StripOfEncodings(b);
    }
  }

  // ----- Distinct secrets -----

  /** SHA-256 as an injective digest of the secret's bytes. */
  datatype Fingerprint = Sha256(bytes: seq<Byte>)

  function Fingerprints(secrets: seq<seq<Byte>>): (prints: seq<Fingerprint>)
    ensures |prints| == |secrets|
  {
    seq(|secrets|, i requires 0 <= i < |secrets| => Sha256(secrets[i]))
  }

  /** The set-size comparison that rejects a reused secret. */
  predicate DistinctSecrets(secrets: seq<seq<Byte>>) {
    var prints := Fingerprints(secrets);
    |Elements(prints)| == |prints|
  }

  lemma DistinctSecretsExact(secrets: seq<seq<Byte>>)
    ensures DistinctSecrets(secrets) <==> NoRepeats(secrets)
  {
    var prints := Fingerprints(secrets);
    SetSize(prints);
    assert NoRepeats(secrets) <==> NoRepeats(prints) by {
      forall i, j | 0 <= i < j < |secrets| ensures secrets[i] == secrets[j] <==> prints[i] == prints[j] {}
    }
  }
}
