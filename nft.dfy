/**
 * The NFTokenID encoder of the workload (workload/nft.py, `encode_nft_id`),
 * following the NFTokenID layout of the XRPL Non-Fungible Tokens standard
 * (XLS-20): 2 bytes of flags, 2 bytes of transfer fee, the 20-byte issuer
 * account ID, the scrambled 4-byte taxon and the 4-byte token sequence, all
 * big-endian, written as 64 upper-case hexadecimal characters.
 *
 * The issuer is given as the bytes the base58 check-decoding of the address
 * yields; the decoding itself is not part of this model.
 */
module Nft {
  import opened Wrappers

  type Byte = x: int | 0 <= x < 256

  /** `ISSUER_LENGTH` and `BUFFER_LENGTH`. */
  const IssuerLength: nat := 20
  const BufferLength: nat := 32

  /** The two exceptions `encode_nft_id` raises. */
  datatype NftError = IssuerLengthError | BufferLengthError

  /** `x & 0xFFFF` on a Python int (two's complement, so never negative). */
  function Low16(x: int): (r: nat)
    ensures r < 0x1_0000
  {
    x % 0x1_0000
  }

  /** `x & 0xFFFFFFFF` on a Python int. */
  function Low32(x: int): (r: nat)
    ensures r < 0x1_0000_0000
  {
    x % 0x1_0000_0000
  }

  function Pow2(k: nat): (r: nat)
    ensures r >= 1
  {
    if k == 0 then 1 else 2 * Pow2(k - 1)
  }

  /** Bitwise exclusive or of two non-negative integers, lowest bit first. */
  function Xor(a: nat, b: nat): nat
    decreases a + b
  {
    if a == 0 && b == 0 then 0
    else 2 * Xor(a / 2, b / 2) + (if a % 2 == b % 2 then 0 else 1)
  }

  /** The mask the taxon is XOR-ed with: `(384160001 * token_seq + 2459) & 0xFFFFFFFF`. */
  function TaxonMask(tokenSeq: int): nat {
    Low32(384160001 * tokenSeq + 2459)
  }

  /**
   * `(taxon ^ mask) & 0xFFFFFFFF`. On Python ints (two's complement) masking
   * distributes over XOR, so this is the low 32 bits of the taxon XOR-ed
   * with the mask.
   */
  function ScrambledTaxon(taxon: int, tokenSeq: int): (r: nat)
    ensures r < 0x1_0000_0000
  {
    Pow2ThirtyTwo();
    XorBound(Low32(taxon), TaxonMask(tokenSeq), 32);
    Xor(Low32(taxon), TaxonMask(tokenSeq))
  }

  /** `struct.pack(">H", x)`. */
  function Be16(x: nat): (r: seq<Byte>)
    requires x < 0x1_0000
    ensures |r| == 2
  {
    [x / 0x100, x % 0x100]
  }

  /** `struct.pack(">I", x)`. */
  function Be32(x: nat): (r: seq<Byte>)
    requires x < 0x1_0000_0000
    ensures |r| == 4
  {
    [x / 0x100_0000, (x / 0x1_0000) % 0x100, (x / 0x100) % 0x100, x % 0x100]
  }

  /** `issuer_bytes[1:] if len(issuer_bytes) == ISSUER_LENGTH + 1 else issuer_bytes`. */
  function IssuerOf(issuerBytes: seq<Byte>): seq<Byte> {
    if |issuerBytes| == IssuerLength + 1 then issuerBytes[1..] else issuerBytes
  }

  /** The packed 32-byte buffer, once the issuer has the right length. */
  function Pack(flags: int, transferFee: int, issuer: seq<Byte>, scrambled: nat, tokenSeq: int): (buf: seq<Byte>)
    requires scrambled < 0x1_0000_0000
    ensures |buf| == 2 + 2 + |issuer| + 4 + 4
  {
    Be16(Low16(flags)) + Be16(Low16(transferFee)) + issuer + Be32(scrambled) + Be32(Low32(tokenSeq))
  }

  function HexDigit(d: nat): (c: char)
    requires d < 16
  {
    "0123456789ABCDEF"[d]
  }

  /** `buf.hex().upper()`. */
  function Hex(buf: seq<Byte>): (s: string)
    ensures |s| == 2 * |buf|
  {
    if |buf| == 0 then "" else [HexDigit(buf[0] / 16), HexDigit(buf[0] % 16)] + Hex(buf[1..])
  }

  /** `encode_nft_id`, with the issuer already decoded to bytes. */
  function EncodeNftId(flags: int, transferFee: int, issuerBytes: seq<Byte>, taxon: int, tokenSeq: int)
    : (r: Result<string, NftError>)
    ensures r.Ok? <==> |issuerBytes| == IssuerLength || |issuerBytes| == IssuerLength + 1
    ensures r.Err? ==> r.error == IssuerLengthError
    ensures r.Ok? ==> |r.value| == 2 * BufferLength
  {
    var issuer := IssuerOf(issuerBytes);
    if |issuer| != IssuerLength then Err(IssuerLengthError)
    else
      var buf := Pack(flags, transferFee, issuer, ScrambledTaxon(taxon, tokenSeq), tokenSeq);
      if |buf| != BufferLength then Err(BufferLengthError)
      else Ok(Hex(buf))
  }

  // ---------------------------------------------------------------------------
  // Reading an NFTokenID back

  /** The fields of an NFTokenID as stored. */
  datatype NftFields = NftFields(flags: nat, transferFee: nat, issuer: seq<Byte>, scrambledTaxon: nat, sequence: nat)

  function HexValue(c: char): (r: Option<nat>)
    ensures r.Some? ==> r.value < 16
  {
    if '0' <= c <= '9' then Some((c as int) - ('0' as int))
    else if 'A' <= c <= 'F' then Some((c as int) - ('A' as int) + 10)
    else None
  }

  /** The bytes an upper-case hexadecimal string of even length denotes. */
  function Unhex(s: string): (r: Option<seq<Byte>>)
    ensures r.Some? ==> 2 * |r.value| == |s|
    decreases |s|
  {
    if |s| == 0 then Some([])
    else if |s| == 1 then None
    else
      match (HexValue(s[0]), HexValue(s[1]), Unhex(s[2..]))
      case (Some(hi), Some(lo), Some(rest)) => Some([16 * hi + lo] + rest)
      case _ => None
  }

  function Be16Value(b: seq<Byte>): nat
    requires |b| == 2
  {
    (b[0] as int) * 0x100 + b[1]
  }

  function Be32Value(b: seq<Byte>): nat
    requires |b| == 4
  {
    (((b[0] as int) * 0x100 + b[1]) * 0x100 + b[2]) * 0x100 + b[3]
  }

  /** The fields of a 64-character NFTokenID, or `None` when it is not one. */
  function DecodeNftId(id: string): Option<NftFields> {
    match Unhex(id)
    case None => None
    case Some(buf) =>
      if |buf| != BufferLength then None
      else
        Some(NftFields(Be16Value(buf[0..2]), Be16Value(buf[2..4]), buf[4..24],
                       Be32Value(buf[24..28]), Be32Value(buf[28..32])))
  }

  /** Undoing the scramble: XOR with the same mask again. */
  function UnscrambledTaxon(scrambled: nat, tokenSeq: int): nat {
    Xor(scrambled, TaxonMask(tokenSeq))
  }

  // ---------------------------------------------------------------------------
  // Properties

  /**
   * The issuer is accepted exactly when it is 20 bytes, or 21 bytes whose
   * leading (version) byte is then dropped; any other length raises
   * IssuerLengthError, and BufferLengthError is never raised.
   */
  lemma IssuerLengthRule(flags: int, transferFee: int, issuerBytes: seq<Byte>, taxon: int, tokenSeq: int)
    ensures var r := EncodeNftId(flags, transferFee, issuerBytes, taxon, tokenSeq);
      && (r.Ok? <==> |issuerBytes| == 20 || |issuerBytes| == 21)
      && (r.Err? ==> r.error == IssuerLengthError)
  {
  }

  lemma HexDigitValue(d: nat)
    requires d < 16
    ensures HexValue(HexDigit(d)) == Some(d)
  {
    var digits := "0123456789ABCDEF";
    assert digits[d] == HexDigit(d);
    if d < 10 {
      assert digits[d] == (('0' as int) + d) as char;
    } else {
      assert digits[d] == (('A' as int) + d - 10) as char;
    }
  }

  /** The output is upper-case hexadecimal, two characters per byte. */
  lemma {:induction false} HexIsUpper(buf: seq<Byte>)
    ensures forall i :: 0 <= i < |Hex(buf)| ==> HexValue(Hex(buf)[i]).Some? && !('a' <= Hex(buf)[i] <= 'z')
  {
    if |buf| > 0 {
      HexIsUpper(buf[1..]);
      HexDigitValue(buf[0] / 16);
      HexDigitValue(buf[0] % 16);
    }
  }

  /** Reading the hexadecimal text back gives the bytes. */
  lemma {:induction false} UnhexHex(buf: seq<Byte>)
    ensures Unhex(Hex(buf)) == Some(buf)
  {
    if |buf| > 0 {
      var s := Hex(buf);
      var hi, lo := buf[0] / 16, buf[0] % 16;
      UnhexHex(buf[1..]);
      HexDigitValue(hi);
      HexDigitValue(lo);
      assert s[0] == HexDigit(hi) && s[1] == HexDigit(lo) && s[2..] == Hex(buf[1..]);
      assert Unhex(s) == Some([16 * hi + lo] + buf[1..]);
      assert [16 * hi + lo] + buf[1..] == buf;
    }
  }

  lemma Be16RoundTrip(x: nat)
    requires x < 0x1_0000
    ensures Be16Value(Be16(x)) == x
  {
  }

  lemma Be32RoundTrip(x: nat)
    requires x < 0x1_0000_0000
    ensures Be32Value(Be32(x)) == x
  {
    var b := Be32(x);
    assert (b[0] as int) * 0x100 + b[1] == x / 0x1_0000;
    assert ((b[0] as int) * 0x100 + b[1]) * 0x100 + b[2] == x / 0x100;
  }

  /**
   * The layout: an accepted issuer gives 64 upper-case hexadecimal characters
   * that read back as the masked flags, the masked transfer fee, the 20-byte
   * issuer, the scrambled taxon and the masked sequence.
   */
  lemma EncodeLayout(flags: int, transferFee: int, issuerBytes: seq<Byte>, taxon: int, tokenSeq: int)
    requires |issuerBytes| == 20 || |issuerBytes| == 21
    ensures var r := EncodeNftId(flags, transferFee, issuerBytes, taxon, tokenSeq);
      && r.Ok? && |r.value| == 64
      && (forall i :: 0 <= i < 64 ==> HexValue(r.value[i]).Some?)
      && DecodeNftId(r.value) == Some(NftFields(Low16(flags), Low16(transferFee), IssuerOf(issuerBytes),
                                                ScrambledTaxon(taxon, tokenSeq), Low32(tokenSeq)))
  {
    var issuer := IssuerOf(issuerBytes);
    var st := ScrambledTaxon(taxon, tokenSeq);
    var buf := Pack(flags, transferFee, issuer, st, tokenSeq);
    HexIsUpper(buf);
    UnhexHex(buf);
    var sq := Low32(tokenSeq);
    assert buf[0..2] == Be16(Low16(flags));
    assert buf[2..4] == Be16(Low16(transferFee));
    assert buf[4..24] == issuer;
    assert buf[24..28] == Be32(st);
    assert buf[28..32] == Be32(sq);
    Be16RoundTrip(Low16(flags));
    Be16RoundTrip(Low16(transferFee));
    Be32RoundTrip(st);
    Be32RoundTrip(sq);
  }

  /** XOR-ing the stored taxon with the same mask recovers the taxon modulo 2^32. */
  lemma UnscrambleRecovers(taxon: int, tokenSeq: int)
    ensures UnscrambledTaxon(ScrambledTaxon(taxon, tokenSeq), tokenSeq) == taxon % 0x1_0000_0000
  {
    XorCancel(Low32(taxon), TaxonMask(tokenSeq));
  }

  lemma {:induction false} Pow2Add(a: nat, b: nat)
    ensures Pow2(a + b) == Pow2(a) * Pow2(b)
  {
    if a > 0 {
      Pow2Add(a - 1, b);
    }
  }

  lemma Pow2ThirtyTwo()
    ensures Pow2(32) == 0x1_0000_0000
  {
    assert Pow2(4) == 16;
    Pow2Add(4, 4);
    Pow2Add(8, 8);
    Pow2Add(16, 16);
  }

  /** Both operands below 2^k: so is their XOR. */
  lemma {:induction false} XorBound(a: nat, b: nat, k: nat)
    requires a < Pow2(k) && b < Pow2(k)
    ensures Xor(a, b) < Pow2(k)
    decreases a + b
  {
    if a != 0 || b != 0 {
      XorBound(a / 2, b / 2, k - 1);
    }
  }

  /** `(a ^ b) ^ b == a`. */
  lemma {:induction false} XorCancel(a: nat, b: nat)
    ensures Xor(Xor(a, b), b) == a
    decreases a + b
  {
    if a != 0 || b != 0 {
      var x := Xor(a, b);
      XorCancel(a / 2, b / 2);
      assert x / 2 == Xor(a / 2, b / 2);
      assert x % 2 == (if a % 2 == b % 2 then 0 else 1);
    }
  }

  /**
   * The example of the doc-comment: flags 11, transfer fee 1337, taxon 1337
   * and sequence 12 give the fields 000B, 0539, 12C5D09E and 0000000C.
   */
  lemma DocExample(flags: int, transferFee: int, issuer: seq<Byte>, taxon: int, tokenSeq: int)
    requires flags == 11 && transferFee == 1337 && taxon == 1337 && tokenSeq == 12 && |issuer| == 20
    ensures var r := EncodeNftId(flags, transferFee, issuer, taxon, tokenSeq);
      && r.Ok? && |r.value| == 64
      && r.value[0..4] == "000B" && r.value[4..8] == "0539" && r.value[8..48] == Hex(issuer)
      && r.value[48..56] == "12C5D09E" && r.value[56..64] == "0000000C"
  {
    ScrambleExample(taxon, tokenSeq);
    var st := ScrambledTaxon(taxon, tokenSeq);
    var r := Hex(Pack(flags, transferFee, issuer, st, tokenSeq));
    EncodeIsHexOfPack(flags, transferFee, issuer, taxon, tokenSeq);
    HexExample(flags, transferFee, issuer, st, tokenSeq);
    Halves(r, 0, "000B", "0539");
    assert r[48..64] == r[48..];
    Halves(r, 48, "12C5D09E", "0000000C");
  }

  /** With a 20-byte issuer the identifier is the text of the packed buffer. */
  lemma EncodeIsHexOfPack(flags: int, transferFee: int, issuer: seq<Byte>, taxon: int, tokenSeq: int)
    requires |issuer| == 20
    ensures EncodeNftId(flags, transferFee, issuer, taxon, tokenSeq)
            == Ok(Hex(Pack(flags, transferFee, issuer, ScrambledTaxon(taxon, tokenSeq), tokenSeq)))
  {
  }

  /** Two adjacent pieces of a string, read off a slice that spans both. */
  lemma Halves(s: string, i: nat, p: string, q: string)
    requires i + |p| + |q| <= |s| && s[i..i + |p| + |q|] == p + q
    ensures s[i..i + |p|] == p && s[i + |p|..i + |p| + |q|] == q
  {
    var t := s[i..i + |p| + |q|];
    assert t == p + q;
    assert s[i..i + |p|] == t[..|p|] && s[i + |p|..i + |p| + |q|] == t[|p|..];
  }

  /** The hexadecimal text of the packed doc-comment example. */
  lemma HexExample(flags: int, transferFee: int, issuer: seq<Byte>, scrambled: nat, tokenSeq: int)
    requires flags == 11 && transferFee == 1337 && scrambled == 0x12C5D09E && tokenSeq == 12
    ensures var r := Hex(Pack(flags, transferFee, issuer, scrambled, tokenSeq));
      && r[..8] == "000B0539" && r[8..8 + 2 * |issuer|] == Hex(issuer)
      && r[8 + 2 * |issuer|..] == "12C5D09E0000000C"
  {
    var head: seq<Byte> := [0x00, 0x0B, 0x05, 0x39];
    var tail: seq<Byte> := [0x12, 0xC5, 0xD0, 0x9E, 0x00, 0x00, 0x00, 0x0C];
    PackExample(flags, transferFee, issuer, scrambled, tokenSeq);
    HexSplit(Pack(flags, transferFee, issuer, scrambled, tokenSeq), head, issuer, tail);
    HeadHex();
    TailHex();
  }

  /** The text of a concatenation of three parts is the concatenation of their texts. */
  lemma HexConcat(buf: seq<Byte>, a: seq<Byte>, b: seq<Byte>, c: seq<Byte>)
    requires buf == a + b + c
    ensures Hex(buf) == Hex(a) + Hex(b) + Hex(c)
  {
    HexAppend(a + b, c);
    HexAppend(a, b);
  }

  /** The text of a concatenation, cut back at the parts' boundaries. */
  lemma HexSplit(buf: seq<Byte>, a: seq<Byte>, b: seq<Byte>, c: seq<Byte>)
    requires buf == a + b + c
    ensures Hex(buf)[..2 * |a|] == Hex(a)
    ensures Hex(buf)[2 * |a|..2 * |a| + 2 * |b|] == Hex(b)
    ensures Hex(buf)[2 * |a| + 2 * |b|..] == Hex(c)
  {
    HexConcat(buf, a, b, c);
    Cut(Hex(buf), Hex(a), Hex(b), Hex(c), 2 * |a|, 2 * |b|);
  }

  lemma Cut(s: string, x: string, y: string, z: string, m: nat, n: nat)
    requires s == x + y + z && |x| == m && |y| == n
    ensures s[..m] == x && s[m..m + n] == y && s[m + n..] == z
  {
  }

  lemma HeadHex()
    ensures Hex([0x00, 0x0B, 0x05, 0x39]) == "000B0539"
  {
  }

  lemma TailHex()
    ensures Hex([0x12, 0xC5, 0xD0, 0x9E, 0x00, 0x00, 0x00, 0x0C]) == "12C5D09E0000000C"
  {
  }

  /** The four packed fields of the doc-comment example. */
  lemma PackExample(flags: int, transferFee: int, issuer: seq<Byte>, scrambled: nat, tokenSeq: int)
    requires flags == 11 && transferFee == 1337 && scrambled == 0x12C5D09E && tokenSeq == 12
    ensures Pack(flags, transferFee, issuer, scrambled, tokenSeq)
            == [0x00, 0x0B, 0x05, 0x39] + issuer + [0x12, 0xC5, 0xD0, 0x9E, 0x00, 0x00, 0x00, 0x0C]
  {
  }

  /** The two characters of each byte sit at positions `2i` and `2i + 1`. */
  lemma {:induction false} HexAt(b: seq<Byte>)
    ensures forall i :: 0 <= i < |b| ==> Hex(b)[2 * i] == HexDigit(b[i] / 16) && Hex(b)[2 * i + 1] == HexDigit(b[i] % 16)
  {
    if |b| > 0 {
      HexAt(b[1..]);
      forall i | 1 <= i < |b|
        ensures Hex(b)[2 * i] == HexDigit(b[i] / 16) && Hex(b)[2 * i + 1] == HexDigit(b[i] % 16)
      {
        assert b[1..][i - 1] == b[i];
        assert Hex(b)[2 * i] == Hex(b[1..])[2 * (i - 1)];
        assert Hex(b)[2 * i + 1] == Hex(b[1..])[2 * (i - 1) + 1];
      }
    }
  }

  /** The scrambled taxon of the doc-comment example. */
  lemma ScrambleExample(taxon: int, tokenSeq: int)
    requires taxon == 1337 && tokenSeq == 12
    ensures TaxonMask(tokenSeq) == 0x12C5D5A7
    ensures ScrambledTaxon(taxon, tokenSeq) == 0x12C5D09E
  {
    assert 384160001 * tokenSeq + 2459 == 0x1_12C5_D5A7;
    assert TaxonMask(tokenSeq) == 0x12C5D5A7;
    assert Low32(taxon) == 1337;
    // The XOR bit by bit, from the highest bit of the mask down.
    assert Xor(0, 1) == 1;
    assert Xor(0, 2) == 2;
    assert Xor(0, 4) == 4;
    assert Xor(0, 9) == 9;
    assert Xor(0, 18) == 18;
    assert Xor(0, 37) == 37;
    assert Xor(0, 75) == 75;
    assert Xor(0, 150) == 150;
    assert Xor(0, 300) == 300;
    assert Xor(0, 600) == 600;
    assert Xor(0, 1201) == 1201;
    assert Xor(0, 2402) == 2402;
    assert Xor(0, 4805) == 4805;
    assert Xor(0, 9611) == 9611;
    assert Xor(0, 19223) == 19223;
    assert Xor(0, 38446) == 38446;
    assert Xor(0, 76893) == 76893;
    assert Xor(0, 153786) == 153786;
    assert Xor(1, 307573) == 307572;
    assert Xor(2, 615146) == 615144;
    assert Xor(5, 1230293) == 1230288;
    assert Xor(10, 2460587) == 2460577;
    assert Xor(20, 4921174) == 4921154;
    assert Xor(41, 9842349) == 9842308;
    assert Xor(83, 19684698) == 19684617;
    assert Xor(167, 39369396) == 39369235;
    assert Xor(334, 78738793) == 78738471;
    assert Xor(668, 157477587) == 157476943;
    assert Xor(1337, 314955175) == 314953886;
  }

  lemma {:induction false} HexAppend(a: seq<Byte>, b: seq<Byte>)
    ensures Hex(a + b) == Hex(a) + Hex(b)
  {
    if |a| > 0 {
      HexAppend(a[1..], b);
      assert (a + b)[0] == a[0];
      assert (a + b)[1..] == a[1..] + b;
    } else {
      assert a + b == b;
    }
  }
}
