/** rtBase64.c against section 4 of RFC 4648. */
module Base64 {
  import opened Sequences

  type Byte = bv8
  type Sextet = v: bv8 | v < 64

  const TABLE := "ABCDEFGHIJKLMNOPQRSTUVWXYZ" + "abcdefghijklmnopqrstuvwxyz" + "0123456789" + "+/"
  const BINARY_LIMIT := 1026
  const TEXT_LIMIT := BINARY_LIMIT * 4 / 3

  // --------------------------------------------------------------- the alphabet

  function CharAt(v: Sextet): char { TABLE[v as int] }

  /** decode_base64_char; None where it sets *error and returns 0. */
  function DecodeChar(c: char): (r: Option<nat>)
    ensures r.Some? ==> r.value < 64
  {
    if 'A' <= c <= 'Z' then Some(c as int - 'A' as int)
    else if 'a' <= c <= 'z' then Some(26 + c as int - 'a' as int)
    else if '0' <= c <= '9' then Some(52 + c as int - '0' as int)
    else if c == '+' then Some(62)
    else if c == '/' then Some(63)
    else None
  }

  predicate Legal(c: char) { DecodeChar(c).Some? }

  function SextetOf(c: char): Sextet {
    match DecodeChar(c) case Some(i) => i as bv8 case None => 0
  }

  lemma TableIs(i: nat)
    requires i < 64
    ensures TABLE[i] == if i < 26 then ('A' as int + i) as char
                        else if i < 52 then ('a' as int + i - 26) as char
                        else if i < 62 then ('0' as int + i - 52) as char
                        else if i == 62 then '+' else '/'
  {}

  lemma TableDecodes(i: nat)
    requires i < 64
    ensures DecodeChar(TABLE[i]) == Some(i)
  {
    TableIs(i);
  }

  lemma CharRoundTrip(v: Sextet)
    ensures Legal(CharAt(v)) && SextetOf(CharAt(v)) == v && CharAt(v) != '='
  {
    TableDecodes(v as int);
  }

  // ---------------------------------------------------------------- the encoding

  /** Section 4 of RFC 4648: three octets are concatenated into 24 bits and read off as
      four groups of six; a shorter last group is filled up with zero bits. */
  function Group(x: Byte, y: Byte, z: Byte): bv24 { (x as bv24 << 16) | (y as bv24 << 8) | (z as bv24) }

  function Six(g: bv24, shift: nat): Sextet
    requires shift <= 18
  {
    ((g >> shift) & 0x3F) as bv8
  }

  function Quantum(g: bv24, chars: nat): (s: string)
    requires 2 <= chars <= 4
    ensures |s| == 4
  {
    [CharAt(Six(g, 18)), CharAt(Six(g, 12)),
     if chars > 2 then CharAt(Six(g, 6)) else '=',
     if chars > 3 then CharAt(Six(g, 0)) else '=']
  }

  function EncodeGroup(g: seq<Byte>): string {
    if |g| == 1 then Quantum(Group(g[0], 0, 0), 2)
    else if |g| == 2 then Quantum(Group(g[0], g[1], 0), 3)
    else if |g| == 3 then Quantum(Group(g[0], g[1], g[2]), 4)
    else ""
  }

  function Encoded(data: seq<Byte>): string { Chunks(data, 3, EncodeGroup) }

  // ---------------------------------------------------------------- the decoding

  /** The octets of the code's three shift expressions. */
  function First(a: Sextet, b: Sextet): Byte { (a << 2) | (b >> 4) }
  function Second(b: Sextet, c: Sextet): Byte { (b << 4) | (c >> 2) }
  function Third(c: Sextet, d: Sextet): Byte { (c << 6) | (d & 0x3F) }

  lemma FirstOctet(x: Byte, y: Byte, z: Byte)
    ensures var g := Group(x, y, z); First(Six(g, 18), Six(g, 12)) == x
  {}

  lemma SecondOctet(x: Byte, y: Byte, z: Byte)
    ensures var g := Group(x, y, z); Second(Six(g, 12), Six(g, 6)) == y
  {}

  lemma ThirdOctet(x: Byte, y: Byte, z: Byte)
    ensures var g := Group(x, y, z); Third(Six(g, 6), Six(g, 0)) == z
  {}

  lemma GroupRoundTrip(x: Byte, y: Byte, z: Byte)
    ensures var g := Group(x, y, z);
            && First(Six(g, 18), Six(g, 12)) == x
            && Second(Six(g, 12), Six(g, 6)) == y
            && Third(Six(g, 6), Six(g, 0)) == z
  {
    FirstOctet(x, y, z);
    SecondOctet(x, y, z);
    ThirdOctet(x, y, z);
  }

  /** The code's expressions for the sextets are the RFC's. */
  lemma ShiftsAreSextets(x: Byte, y: Byte, z: Byte)
    ensures var g := Group(x, y, z);
            && x >> 2 == Six(g, 18)
            && ((x & 0x03) << 4) | (y >> 4) == Six(g, 12)
            && ((y & 0xF) << 2) | (z >> 6) == Six(g, 6)
            && z & 0x3F == Six(g, 0)
  {}

  predicate AllLegal(t: string) { forall i :: 0 <= i < |t| ==> Legal(t[i]) }

  /** The code looks for '=' at the last place but one first; the last is then not read. */
  function Padding(t: string): nat
    requires |t| >= 4
  {
    if t[|t| - 2] == '=' then 2 else if t[|t| - 1] == '=' then 1 else 0
  }

  function Octets(q: string): seq<Byte> {
    if |q| != 4 then []
    else
      var a, b, c, d := SextetOf(q[0]), SextetOf(q[1]), SextetOf(q[2]), SextetOf(q[3]);
      [First(a, b), Second(b, c), Third(c, d)]
  }

  /** All groups but the last one whole, of the last one what the padding leaves. */
  function Decoded(t: string): seq<Byte>
    requires |t| >= 4 && |t| % 4 == 0
  {
    Chunks(t[..|t| - 4], 4, Octets) + Octets(t[|t| - 4..])[..3 - Padding(t)]
  }

  datatype Result = Bytes(data: seq<Byte>) | Error

  /** rtBase64_decode. It reads before the text when that is empty, which callers must not pass. */
  function DecodeText(t: string): Result
    requires t != ""
  {
    if |t| > TEXT_LIMIT || |t| % 4 != 0 then Error
    else if AllLegal(t[..|t| - Padding(t)]) then Bytes(Decoded(t))
    else Error
  }

  // ---------------------------------------------------------------- round trip

  lemma QuantumLegal(g: bv24, chars: nat)
    requires 2 <= chars <= 4
    ensures Padding(Quantum(g, chars)) == 4 - chars && AllLegal(Quantum(g, chars)[..chars])
  {
    CharRoundTrip(Six(g, 18));
    CharRoundTrip(Six(g, 12));
    CharRoundTrip(Six(g, 6));
    CharRoundTrip(Six(g, 0));
  }

  lemma QuantumSextets(g: bv24, chars: nat)
    requires 2 <= chars <= 4
    ensures var q := Quantum(g, chars);
            && SextetOf(q[0]) == Six(g, 18) && SextetOf(q[1]) == Six(g, 12)
            && (chars > 2 ==> SextetOf(q[2]) == Six(g, 6)) && (chars > 3 ==> SextetOf(q[3]) == Six(g, 0))
  {
    CharRoundTrip(Six(g, 18));
    CharRoundTrip(Six(g, 12));
    CharRoundTrip(Six(g, 6));
    CharRoundTrip(Six(g, 0));
  }

  lemma QuantumDecodes(x: Byte, y: Byte, z: Byte, chars: nat)
    requires 2 <= chars <= 4 && (chars < 4 ==> z == 0) && (chars < 3 ==> y == 0)
    ensures var q := Quantum(Group(x, y, z), chars);
            && Padding(q) == 4 - chars && AllLegal(q[..chars])
            && Octets(q)[..chars - 1] == [x, y, z][..chars - 1]
  {
    QuantumLegal(Group(x, y, z), chars);
    QuantumSextets(Group(x, y, z), chars);
    GroupRoundTrip(x, y, z);
  }

  /** The text of one group, of as many octets as `g` has, read back. */
  ghost predicate Decodes(q: string, g: seq<Byte>) {
    && 1 <= |g| <= 3 && |q| == 4 && Padding(q) == 3 - |g| && AllLegal(q[..1 + |g|])
    && |Octets(q)| == 3 && Octets(q)[..|g|] == g
  }

  lemma QuantumDecodesTo(x: Byte, y: Byte, z: Byte, g: seq<Byte>)
    requires 1 <= |g| <= 3 && (|g| < 3 ==> z == 0) && (|g| < 2 ==> y == 0) && [x, y, z][..|g|] == g
    ensures Decodes(Quantum(Group(x, y, z), |g| + 1), g)
  {
    QuantumDecodes(x, y, z, |g| + 1);
  }

  lemma GroupDecodes(g: seq<Byte>)
    requires 1 <= |g| <= 3
    ensures Decodes(EncodeGroup(g), g)
  {
    var x, y, z := g[0], if |g| > 1 then g[1] else 0, if |g| > 2 then g[2] else 0;
    assert [x, y, z][..|g|] == g;
    QuantumDecodesTo(x, y, z, g);
  }

  lemma WholeGroupDecodes(g: seq<Byte>)
    requires |g| == 3
    ensures |EncodeGroup(g)| == 4 && Octets(EncodeGroup(g)) == g && AllLegal(EncodeGroup(g))
  {
    GroupDecodes(g);
    assert EncodeGroup(g)[..4] == EncodeGroup(g) && Octets(EncodeGroup(g))[..3] == Octets(EncodeGroup(g));
  }

  lemma {:induction false} WholeGroupsLegal(data: seq<Byte>, m: nat)
    requires |data| == m * 3
    ensures AllLegal(Encoded(data))
  {
    if m == 0 {
    } else {
      ChunksStep(data, 3, EncodeGroup);
      WholeGroupDecodes(data[..3]);
      WholeGroupsLegal(data[3..], m - 1);
    }
  }

  lemma WholeGroupsRoundTrip(data: seq<Byte>, m: nat)
    requires |data| == m * 3
    ensures |Encoded(data)| == m * 4 && Chunks(Encoded(data), 4, Octets) == data && AllLegal(Encoded(data))
  {
    forall g: seq<Byte> ensures |g| == 3 ==> |EncodeGroup(g)| == 4 && Octets(EncodeGroup(g)) == g {
      if |g| == 3 { WholeGroupDecodes(g); }
    }
    ChunksInverse(data, 3, EncodeGroup, 4, Octets, m, x => true);
    WholeGroupsLegal(data, m);
  }

  /** The text is that of the whole groups before the last, and that of the last. */
  lemma EncodedEnds(data: seq<Byte>, m: nat)
    requires m * 3 < |data| <= m * 3 + 3
    ensures var full, last := data[..m * 3], data[m * 3..];
            && Encoded(data) == Encoded(full) + EncodeGroup(last) && |Encoded(full)| == m * 4
            && |EncodeGroup(last)| == 4
  {
    ChunksSplit(data, 3, EncodeGroup, m);
    WholeGroupsRoundTrip(data[..m * 3], m);
    GroupDecodes(data[m * 3..]);
  }

  /** Four characters for every three bytes begun. */
  lemma EncodedLength(data: seq<Byte>)
    ensures |Encoded(data)| == (|data| + 2) / 3 * 4 && |Encoded(data)| % 4 == 0
    ensures |data| <= BINARY_LIMIT ==> |Encoded(data)| <= TEXT_LIMIT
  {
    if data != [] { EncodedEnds(data, (|data| - 1) / 3); }
  }

  lemma PaddingOfLast(t: string, front: string, q: string)
    requires t == front + q && |q| == 4
    ensures Padding(t) == Padding(q) && t[..|t| - 4] == front && t[|t| - 4..] == q
    ensures t[..|t| - Padding(t)] == front + q[..4 - Padding(q)]
  {
    assert t[|t| - 2] == q[2] && t[|t| - 1] == q[3];
  }

  lemma LegalParts(a: string, b: string)
    requires AllLegal(a) && AllLegal(b)
    ensures AllLegal(a + b)
  {}

  lemma DecodedParts(t: string, front: string, q: string)
    requires t == front + q && |q| == 4 && |t| % 4 == 0
    ensures Decoded(t) == Chunks(front, 4, Octets) + Octets(q)[..3 - Padding(q)]
  {
    PaddingOfLast(t, front, q);
    var a, b := t[..|t| - 4], t[|t| - 4..];
    assert a == front && b == q;
  }

  lemma TextDecodes(t: string, front: string, q: string)
    requires t == front + q && |q| == 4 && |t| % 4 == 0 && |t| <= TEXT_LIMIT
    requires AllLegal(front) && AllLegal(q[..4 - Padding(q)])
    ensures DecodeText(t) == Bytes(Chunks(front, 4, Octets) + Octets(q)[..3 - Padding(q)])
  {
    PaddingOfLast(t, front, q);
    DecodedParts(t, front, q);
    var read := t[..|t| - Padding(t)];
    assert AllLegal(read) by {
      LegalParts(front, q[..4 - Padding(q)]);
      assert read == front + q[..4 - Padding(q)];
    }
  }

  /** Decoding the encoding of 1 to 1026 bytes gives the bytes back. */
  lemma RoundTrip(data: seq<Byte>)
    requires 1 <= |data| <= 1026
    ensures DecodeText(Encoded(data)) == Bytes(data)
  {
    var m := (|data| - 1) / 3;
    var full, last := data[..m * 3], data[m * 3..];
    EncodedEnds(data, m);
    WholeGroupsRoundTrip(full, m);
    GroupDecodes(last);
    EncodedLength(data);
    TextDecodes(Encoded(data), Encoded(full), EncodeGroup(last));
    assert data == full + last;
  }

  /** Decoding fails exactly for a text that is longer than what 1026 bytes come to, for one that
      is no whole number of groups, and when a character it reads, which leaves out the padding,
      is outside the alphabet. */
  lemma DecodeFailsIff(t: string)
    requires t != ""
    ensures DecodeText(t) == Error <==>
              |t| > 1368 || |t| % 4 != 0 || exists i :: 0 <= i < |t| - Padding(t) && !Legal(t[i])
  {
    if |t| <= 1368 && |t| % 4 == 0 {
      var read := t[..|t| - Padding(t)];
      if i :| 0 <= i < |t| - Padding(t) && !Legal(t[i]) { assert !Legal(read[i]); }
    }
  }

  /** After a '=' in the last place but one anything may follow. */
  lemma LastCharIgnored(t: string, c: char)
    requires 4 <= |t| && |t| % 4 == 0 && t[|t| - 2] == '='
    ensures DecodeText(t[..|t| - 1] + [c]) == DecodeText(t)
  {
    var u := t[..|t| - 1] + [c];
    var n := |t|;
    assert u[n - 2] == '=' && u[..n - 2] == t[..n - 2] && u[..n - 4] == t[..n - 4];
    assert Octets(u[n - 4..])[..1] == Octets(t[n - 4..])[..1];
  }

  // ------------------------------------------------------------- the other way

  lemma TableInverse(c: char)
    requires Legal(c)
    ensures TABLE[DecodeChar(c).value] == c
  {
    TableIs(DecodeChar(c).value);
  }

  lemma AsBits(i: nat)
    requires i < 64
    ensures (i as bv8) as int == i
  {}

  lemma CharInverse(c: char)
    requires Legal(c)
    ensures CharAt(SextetOf(c)) == c
  {
    TableInverse(c);
    AsBits(DecodeChar(c).value);
  }

  /** The bits that a padded group leaves over are zero, and the padding is complete. */
  predicate Canonical(q: string)
    requires |q| == 4
  {
    match Padding(q)
    case 0 => true
    case 1 => SextetOf(q[2]) & 0x03 == 0
    case _ => SextetOf(q[1]) & 0x0F == 0 && q[3] == '='
  }

  lemma WholeBits(a: Sextet, b: Sextet, c: Sextet, d: Sextet)
    ensures var g := Group(First(a, b), Second(b, c), Third(c, d));
            Six(g, 18) == a && Six(g, 12) == b && Six(g, 6) == c && Six(g, 0) == d
  {}

  lemma TwoBytesBits(a: Sextet, b: Sextet, c: Sextet)
    ensures var g := Group(First(a, b), Second(b, c), 0);
            Six(g, 18) == a && Six(g, 12) == b && (Six(g, 6) == c <==> c & 0x03 == 0)
  {}

  lemma OneByteBits(a: Sextet, b: Sextet)
    ensures var g := Group(First(a, b), 0, 0);
            Six(g, 18) == a && (Six(g, 12) == b <==> b & 0x0F == 0)
  {}

  lemma WholeGroupEncodes(q: string)
    requires |q| == 4 && AllLegal(q)
    ensures |Octets(q)| == 3 && EncodeGroup(Octets(q)) == q
  {
    WholeBits(SextetOf(q[0]), SextetOf(q[1]), SextetOf(q[2]), SextetOf(q[3]));
    CharInverse(q[0]);
    CharInverse(q[1]);
    CharInverse(q[2]);
    CharInverse(q[3]);
  }

  lemma CharsDiffer(v: Sextet, c: char)
    requires Legal(c)
    ensures CharAt(v) == c <==> v == SextetOf(c)
  {
    CharRoundTrip(v);
    CharInverse(c);
  }

  lemma TwoBytesEncodeIff(q: string)
    requires |q| == 4 && q[3] == '=' && Legal(q[0]) && Legal(q[1]) && Legal(q[2])
    ensures |Octets(q)| == 3 && (EncodeGroup(Octets(q)[..2]) == q <==> SextetOf(q[2]) & 0x03 == 0)
  {
    var a, b, c := SextetOf(q[0]), SextetOf(q[1]), SextetOf(q[2]);
    var g := Group(First(a, b), Second(b, c), 0);
    TwoBytesBits(a, b, c);
    CharInverse(q[0]);
    CharInverse(q[1]);
    CharsDiffer(Six(g, 6), q[2]);
    assert Octets(q)[..2] == [First(a, b), Second(b, c)];
    var r := Quantum(g, 3);
    assert r[0] == q[0] && r[1] == q[1] && r[3] == q[3];
    assert r == q <==> r[2] == q[2];
  }

  lemma OneByteEncodesIff(q: string)
    requires |q| == 4 && q[2] == '=' && Legal(q[0]) && Legal(q[1])
    ensures |Octets(q)| == 3
    ensures EncodeGroup(Octets(q)[..1]) == q <==> SextetOf(q[1]) & 0x0F == 0 && q[3] == '='
  {
    var a, b := SextetOf(q[0]), SextetOf(q[1]);
    var g := Group(First(a, b), 0, 0);
    OneByteBits(a, b);
    CharInverse(q[0]);
    CharsDiffer(Six(g, 12), q[1]);
    assert Octets(q)[..1] == [First(a, b)];
    var r := Quantum(g, 2);
    assert r[0] == q[0] && r[2] == q[2] && r[3] == '=';
    assert r == q <==> r[1] == q[1] && r[3] == q[3];
  }

  lemma LastGroupEncodesIff(q: string)
    requires |q| == 4 && AllLegal(q[..4 - Padding(q)])
    ensures |Octets(q)| == 3
    ensures EncodeGroup(Octets(q)[..3 - Padding(q)]) == q <==> Canonical(q)
  {
    var p, read := Padding(q), q[..4 - Padding(q)];
    assert Legal(read[0]) && Legal(read[1]) && read[0] == q[0] && read[1] == q[1];
    if p == 2 {
      OneByteEncodesIff(q);
    } else if p == 1 {
      assert Legal(read[2]) && read[2] == q[2];
      TwoBytesEncodeIff(q);
    } else {
      assert read == q && Octets(q)[..3] == Octets(q);
      WholeGroupEncodes(q);
    }
  }

  lemma WholeGroupsEncode(front: string, m: nat)
    requires |front| == m * 4 && AllLegal(front)
    ensures var full := Chunks(front, 4, Octets); |full| == m * 3 && Encoded(full) == front
  {
    forall q: string
      ensures |q| == 4 && (forall c :: c in q ==> Legal(c)) ==> |Octets(q)| == 3 && EncodeGroup(Octets(q)) == q
    {
      if |q| == 4 && forall c :: c in q ==> Legal(c) { WholeGroupEncodes(q); }
    }
    ChunksInverse(front, 4, Octets, 3, EncodeGroup, m, c => Legal(c));
  }

  /** A text that decodes is the encoding of what it decodes to exactly when its last group
      is canonical: different texts decode alike only by left-over bits or a '=' in the
      last place but one. */
  lemma EncodesBackIff(t: string, m: nat)
    requires |t| == m * 4 + 4 && DecodeText(t).Bytes?
    ensures Encoded(DecodeText(t).data) == t <==> Canonical(t[m * 4..])
  {
    var front, q := t[..m * 4], t[m * 4..];
    assert t == front + q;
    PaddingOfLast(t, front, q);
    var read := t[..|t| - Padding(t)];
    LegalPrefix(front, q[..4 - Padding(q)]);
    WholeGroupsEncode(front, m);
    LastGroupEncodesIff(q);
    EncodedParts(Chunks(front, 4, Octets), Octets(q)[..3 - Padding(q)], m);
  }

  lemma LegalPrefix(a: string, b: string)
    requires AllLegal(a + b)
    ensures AllLegal(a) && AllLegal(b)
  {
    forall i | 0 <= i < |a| ensures Legal(a[i]) { assert a[i] == (a + b)[i]; }
    forall i | 0 <= i < |b| ensures Legal(b[i]) { assert b[i] == (a + b)[|a| + i]; }
  }

  lemma EncodedParts(full: seq<Byte>, last: seq<Byte>, m: nat)
    requires |full| == m * 3 && 1 <= |last| <= 3
    ensures Encoded(full + last) == Encoded(full) + EncodeGroup(last)
  {
    var data := full + last;
    assert data[..m * 3] == full && data[m * 3..] == last;
    EncodedEnds(data, m);
  }

  // ------------------------------------------------------- the loops over buffers

  lemma EncodedSnoc(data: seq<Byte>, m: nat)
    requires m * 3 + 3 <= |data|
    ensures Encoded(data[..m * 3 + 3]) == Encoded(data[..m * 3]) + EncodeGroup(data[m * 3..m * 3 + 3])
  {
    var d := data[..m * 3 + 3];
    ChunksSplit(d, 3, EncodeGroup, m);
    assert d[..m * 3] == data[..m * 3] && d[m * 3..] == data[m * 3..m * 3 + 3];
  }

  /** The body of the encoder's loop: four characters for three bytes. */
  method WriteGroup(input: seq<Byte>, r: nat, out: array<char>, w: nat)
    requires r + 3 <= |input| && w + 4 <= out.Length
    modifies out
    ensures out[..w + 4] == old(out[..w]) + EncodeGroup(input[r..r + 3])
  {
    ghost var before := out[..w];
    var x, y, z := input[r], input[r + 1], input[r + 2];
    ShiftsAreSextets(x, y, z);
    assert input[r..r + 3] == [x, y, z];
    out[w] := CharAt(x >> 2);
    out[w + 1] := CharAt(((x & 0x03) << 4) | (y >> 4));
    out[w + 2] := CharAt(((y & 0xF) << 2) | (z >> 6));
    out[w + 3] := CharAt(z & 0x3F);
    assert out[..w + 4] == before + [out[w], out[w + 1], out[w + 2], out[w + 3]];
  }

  /** The last group when it has one byte. */
  method WriteOne(input: seq<Byte>, r: nat, out: array<char>, w: nat)
    requires r + 1 == |input| && w + 4 <= out.Length
    modifies out
    ensures out[..w + 4] == old(out[..w]) + EncodeGroup(input[r..])
  {
    ghost var before := out[..w];
    var x := input[r];
    ShiftsAreSextets(x, 0, 0);
    assert input[r..] == [x];
    out[w] := CharAt(x >> 2);
    out[w + 1] := CharAt((x & 0x03) << 4);
    out[w + 2] := '=';
    out[w + 3] := '=';
    assert out[..w + 4] == before + [out[w], out[w + 1], out[w + 2], out[w + 3]];
  }

  /** The last group when it has two. */
  method WriteTwo(input: seq<Byte>, r: nat, out: array<char>, w: nat)
    requires r + 2 == |input| && w + 4 <= out.Length
    modifies out
    ensures out[..w + 4] == old(out[..w]) + EncodeGroup(input[r..])
  {
    ghost var before := out[..w];
    var x, y := input[r], input[r + 1];
    ShiftsAreSextets(x, y, 0);
    assert input[r..] == [x, y];
    out[w] := CharAt(x >> 2);
    out[w + 1] := CharAt(((x & 0x03) << 4) | (y >> 4));
    out[w + 2] := CharAt((y & 0xF) << 2);
    out[w + 3] := '=';
    assert out[..w + 4] == before + [out[w], out[w + 1], out[w + 2], out[w + 3]];
  }

  /** What the encoder allocates. */
  function OutSize(n: nat): nat { n * 4 / 3 + 1 + if n % 3 != 0 then 4 else 0 }

  lemma OutSizeFits(n: nat)
    ensures (n + 2) / 3 * 4 + 1 <= OutSize(n) <= (n + 2) / 3 * 4 + 3
    ensures n - n % 3 == n / 3 * 3 && n / 3 * 4 + (if n % 3 == 0 then 0 else 4) == (n + 2) / 3 * 4
  {}

  /** The loop over the whole groups. */
  method EncodeWhole(input: seq<Byte>, m: nat, out: array<char>) returns (w: nat)
    requires m * 3 <= |input| && m * 4 <= out.Length
    modifies out
    ensures w == m * 4 && out[..w] == Encoded(input[..m * 3])
  {
    var r := 0;
    w := 0;
    ghost var k: nat := 0;
    while r < m * 3
      invariant r == k * 3 && w == k * 4 && k <= m
      invariant out[..w] == Encoded(input[..r])
    {
      EncodedSnoc(input, k);
      WriteGroup(input, r, out, w);
      r, w, k := r + 3, w + 4, k + 1;
    }
  }

  /** rtBase64_encode: the text, a terminator, and at most two characters to spare. */
  method Encode(input: seq<Byte>) returns (out: array?<char>, outSize: nat)
    ensures out == null <==> |input| > BINARY_LIMIT
    ensures out != null ==>
              && out.Length == outSize && fresh(out)
              && |Encoded(input)| + 1 <= outSize <= |Encoded(input)| + 3
              && out[..|Encoded(input)|] == Encoded(input) && out[|Encoded(input)|] == '\0'
  {
    if |input| > BINARY_LIMIT { return null, 0; }
    outSize := OutSize(|input|);
    OutSizeFits(|input|);
    EncodedLength(input);
    out := new char[outSize];
    var w := EncodeWhole(input, |input| / 3, out);
    w := EncodeLast(input, out, w);
    out[w] := '\0';
  }

  /** The switch after the loop. */
  method EncodeLast(input: seq<Byte>, out: array<char>, w: nat) returns (end: nat)
    requires w == |input| / 3 * 4 && w + 4 <= out.Length + (if |input| % 3 == 0 then 4 else 0)
    requires out[..w] == Encoded(input[..|input| / 3 * 3])
    modifies out
    ensures end == w + (if |input| % 3 == 0 then 0 else 4) && end <= out.Length && out[..end] == Encoded(input)
  {
    var r := |input| / 3 * 3;
    end := w;
    if |input| % 3 == 0 {
      assert input[..r] == input;
    } else {
      EncodedEnds(input, |input| / 3);
      if |input| % 3 == 1 { WriteOne(input, r, out, w); } else { WriteTwo(input, r, out, w); }
      end := w + 4;
    }
  }

  // --------------------------------------------------------------------- decoding

  lemma OctetsSnoc(t: string, m: nat)
    requires m * 4 + 4 <= |t|
    ensures Chunks(t[..m * 4 + 4], 4, Octets) == Chunks(t[..m * 4], 4, Octets) + Octets(t[m * 4..m * 4 + 4])
  {
    var d := t[..m * 4 + 4];
    ChunksSplit(d, 4, Octets, m);
    assert d[..m * 4] == t[..m * 4] && d[m * 4..] == t[m * 4..m * 4 + 4];
  }

  /** decode_base64_char with its sticky error flag. */
  method DecodeOne(c: char, error: bool) returns (v: Sextet, error': bool)
    ensures v == SextetOf(c) && error' == (error || !Legal(c))
  {
    match DecodeChar(c) {
      case Some(i) => v, error' := i as bv8, error;
      case None => v, error' := 0, true;
    }
  }

  method ReadGroup(t: string, r: nat, out: array<Byte>, w: nat, error: bool) returns (error': bool)
    requires r + 4 <= |t| && w + 3 <= out.Length
    modifies out
    ensures out[..w + 3] == old(out[..w]) + Octets(t[r..r + 4])
    ensures error' == (error || !AllLegal(t[r..r + 4]))
  {
    ghost var before, q := out[..w], t[r..r + 4];
    var a, b, c, d: Sextet;
    a, error' := DecodeOne(t[r], error);
    b, error' := DecodeOne(t[r + 1], error');
    c, error' := DecodeOne(t[r + 2], error');
    d, error' := DecodeOne(t[r + 3], error');
    assert q[0] == t[r] && q[1] == t[r + 1] && q[2] == t[r + 2] && q[3] == t[r + 3];
    out[w] := (a << 2) | (b >> 4);
    out[w + 1] := (b << 4) | (c >> 2);
    out[w + 2] := (c << 6) | (d & 0x3F);
    assert out[..w + 3] == before + [out[w], out[w + 1], out[w + 2]];
  }

  /** Group `k`, after those before it. */
  method DecodeNext(t: string, k: nat, out: array<Byte>, error: bool) returns (error': bool)
    requires k * 4 + 4 <= |t| && k * 3 + 3 <= out.Length
    requires out[..k * 3] == Chunks(t[..k * 4], 4, Octets) && error == !AllLegal(t[..k * 4])
    modifies out
    ensures out[..k * 3 + 3] == Chunks(t[..k * 4 + 4], 4, Octets) && error' == !AllLegal(t[..k * 4 + 4])
  {
    ghost var before := out[..k * 3];
    OctetsSnoc(t, k);
    LegalSplit(t, k * 4, k * 4 + 4);
    error' := ReadGroup(t, k * 4, out, k * 3, error);
    assert out[..k * 3 + 3] == before + Octets(t[k * 4..k * 4 + 4]);
  }

  /** The loop over whole groups of four characters. */
  method DecodeWhole(t: string, m: nat, out: array<Byte>) returns (error: bool)
    requires m * 4 <= |t| && m * 3 <= out.Length
    modifies out
    ensures out[..m * 3] == Chunks(t[..m * 4], 4, Octets) && error == !AllLegal(t[..m * 4])
  {
    var k := 0;
    error := false;
    while k < m
      invariant k <= m
      invariant out[..k * 3] == Chunks(t[..k * 4], 4, Octets) && error == !AllLegal(t[..k * 4])
    {
      error := DecodeNext(t, k, out, error);
      k := k + 1;
    }
  }

  lemma LegalSplit(t: string, r: nat, s: nat)
    requires r <= s <= |t|
    ensures AllLegal(t[..s]) <==> AllLegal(t[..r]) && AllLegal(t[r..s])
  {
    if AllLegal(t[..r]) && AllLegal(t[r..s]) {
      LegalParts(t[..r], t[r..s]);
      assert t[..s] == t[..r] + t[r..s];
    }
    if AllLegal(t[..s]) {
      forall i | 0 <= i < r ensures Legal(t[..r][i]) { assert t[..r][i] == t[..s][i]; }
      forall i | 0 <= i < s - r ensures Legal(t[r..s][i]) { assert t[r..s][i] == t[..s][r + i]; }
    }
  }

  /** The ending with two padding characters. */
  method ReadOne(t: string, r: nat, out: array<Byte>, w: nat, error: bool) returns (error': bool)
    requires r + 4 == |t| && w + 1 <= out.Length
    modifies out
    ensures out[..w + 1] == old(out[..w]) + Octets(t[r..])[..1]
    ensures error' == (error || !AllLegal(t[r..r + 2]))
  {
    ghost var before, q, read := out[..w], t[r..], t[r..r + 2];
    assert q[0] == t[r] && q[1] == t[r + 1] && read[0] == t[r] && read[1] == t[r + 1];
    var a, b: Sextet;
    a, error' := DecodeOne(t[r], error);
    b, error' := DecodeOne(t[r + 1], error');
    assert Octets(q)[..1] == [First(a, b)];
    out[w] := (a << 2) | (b >> 4);
    assert out[..w + 1] == before + [out[w]];
  }

  /** Decodes three characters. */
  method DecodeThree(t: string, r: nat, error: bool) returns (a: Sextet, b: Sextet, c: Sextet, error': bool)
    requires r + 3 <= |t|
    ensures a == SextetOf(t[r]) && b == SextetOf(t[r + 1]) && c == SextetOf(t[r + 2])
    ensures error' == (error || !AllLegal(t[r..r + 3]))
  {
    ghost var read := t[r..r + 3];
    assert read[0] == t[r] && read[1] == t[r + 1] && read[2] == t[r + 2];
    a, error' := DecodeOne(t[r], error);
    b, error' := DecodeOne(t[r + 1], error');
    c, error' := DecodeOne(t[r + 2], error');
  }

  method PutTwo(out: array<Byte>, w: nat, a: Sextet, b: Sextet, c: Sextet)
    requires w + 2 <= out.Length
    modifies out
    ensures out[..w + 2] == old(out[..w]) + [First(a, b), Second(b, c)]
  {
    out[w] := (a << 2) | (b >> 4);
    out[w + 1] := (b << 4) | (c >> 2);
    assert out[..w + 2] == old(out[..w]) + [out[w], out[w + 1]];
  }

  lemma TwoOctets(q: string)
    requires |q| == 4
    ensures Octets(q)[..2] == [First(SextetOf(q[0]), SextetOf(q[1])), Second(SextetOf(q[1]), SextetOf(q[2]))]
  {}

  /** The ending with one. */
  method ReadTwo(t: string, r: nat, out: array<Byte>, w: nat, error: bool) returns (error': bool)
    requires r + 4 == |t| && w + 2 <= out.Length
    modifies out
    ensures out[..w + 2] == old(out[..w]) + Octets(t[r..])[..2]
    ensures error' == (error || !AllLegal(t[r..r + 3]))
  {
    var a, b, c: Sextet;
    a, b, c, error' := DecodeThree(t, r, error);
    TwoOctets(t[r..]);
    assert t[r..][0] == t[r] && t[r..][1] == t[r + 1] && t[r..][2] == t[r + 2];
    PutTwo(out, w, a, b, c);
  }

  lemma UnpaddedGroup(q: string)
    requires |q| == 4 && Padding(q) == 0
    ensures Octets(q)[..3 - Padding(q)] == Octets(q)
  {}

  lemma FourTimes(m: nat)
    ensures m * 4 % 4 == 0
  {}

  lemma WholeDecoded(t: string, m: nat)
    requires |t| == m * 4 && m > 0 && Padding(t) == 0
    ensures |t| % 4 == 0 && Decoded(t) == Chunks(t, 4, Octets)
  {
    FourTimes(m);
    var r := (m - 1) * 4;
    var front, q := t[..r], t[r..];
    assert t == front + q && t[..r + 4] == t && t[r..r + 4] == q;
    PaddingOfLast(t, front, q);
    DecodedParts(t, front, q);
    UnpaddedGroup(q);
    OctetsSnoc(t, m - 1);
  }

  /** The whole groups before a padded one, then the padded one. */
  method DecodePadded(t: string, m: nat, out: array<Byte>) returns (error: bool)
    requires |t| == m * 4 + 4 && Padding(t) > 0 && out.Length == m * 3 + 3 - Padding(t)
    modifies out
    ensures out[..] == Decoded(t) && error == !AllLegal(t[..|t| - Padding(t)])
  {
    error := DecodeWhole(t, m, out);
    LegalSplit(t, m * 4, |t| - Padding(t));
    if t[|t| - 2] == '=' {
      error := ReadOne(t, m * 4, out, m * 3, error);
    } else {
      error := ReadTwo(t, m * 4, out, m * 3, error);
    }
    assert out[..] == out[..out.Length];
  }

  method DecodeUnpadded(t: string, m: nat, out: array<Byte>) returns (error: bool)
    requires |t| == m * 4 && m > 0 && Padding(t) == 0 && out.Length == m * 3
    modifies out
    ensures out[..] == Decoded(t) && error == !AllLegal(t[..|t| - Padding(t)])
  {
    error := DecodeWhole(t, m, out);
    WholeDecoded(t, m);
    assert t[..m * 4] == t && out[..m * 3] == out[..];
  }

  lemma Quarter(n: nat)
    requires n % 4 == 0 && n > 0
    ensures n == n / 4 * 4 && n / 4 > 0
  {}

  /** rtBase64_decode; null for RT_ERROR. */
  method Decode(t: string) returns (out: array?<Byte>)
    requires t != ""
    ensures out == null <==> DecodeText(t) == Error
    ensures out != null ==> fresh(out) && DecodeText(t) == Bytes(out[..])
  {
    if |t| > TEXT_LIMIT { return null; }
    if |t| % 4 != 0 { return null; }
    Quarter(|t|);
    var m := |t| / 4;
    var padding := if t[|t| - 2] == '=' then 2 else if t[|t| - 1] == '=' then 1 else 0;
    out := new Byte[m * 3 - padding];
    var error;
    if padding == 0 {
      error := DecodeUnpadded(t, m, out);
    } else {
      error := DecodePadded(t, m - 1, out);
    }
    if error { return null; }
  }
}
