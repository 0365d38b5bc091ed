/**
 * Upper-case hexadecimal text of byte arrays. Decoding looks each character
 * up in a table built from the sixteen upper-case digits; a character missing
 * from the table makes the lookup return null, whose unboxing throws.
 */
module HexUtils {
  import opened Wrappers

  const HEX_DIGITS: string := "0123456789ABCDEF"

  datatype HexError = NullPointer

  /** The characters of HEX_DIGITS: the decimal digits and the upper-case letters A to F. */
  predicate IsHexDigit(c: char) {
    '0' <= c <= '9' || 'A' <= c <= 'F'
  }

  /** HEX_DIGITS[n]: the digit for a nibble. */
  function HexDigit(n: bv8): (c: char)
    requires n < 16
    ensures IsHexDigit(c)
  {
    if n == 0 then '0'
    else if n == 1 then '1'
    else if n == 2 then '2'
    else if n == 3 then '3'
    else if n == 4 then '4'
    else if n == 5 then '5'
    else if n == 6 then '6'
    else if n == 7 then '7'
    else if n == 8 then '8'
    else if n == 9 then '9'
    else if n == 10 then 'A'
    else if n == 11 then 'B'
    else if n == 12 then 'C'
    else if n == 13 then 'D'
    else if n == 14 then 'E'
    else 'F'
  }

  /** HEX_DIGIT_TABLE.get(c): the position of `c` among the sixteen digits, or null. */
  function DigitValue(c: char): (r: Option<bv8>)
    ensures r.Some? <==> IsHexDigit(c)
    ensures r.Some? ==> r.value < 16 && HexDigit(r.value) == c
  {
    if c == '0' then Some(0)
    else if c == '1' then Some(1)
    else if c == '2' then Some(2)
    else if c == '3' then Some(3)
    else if c == '4' then Some(4)
    else if c == '5' then Some(5)
    else if c == '6' then Some(6)
    else if c == '7' then Some(7)
    else if c == '8' then Some(8)
    else if c == '9' then Some(9)
    else if c == 'A' then Some(10)
    else if c == 'B' then Some(11)
    else if c == 'C' then Some(12)
    else if c == 'D' then Some(13)
    else if c == 'E' then Some(14)
    else if c == 'F' then Some(15)
    else None
  }

  /** Looking up the digit of a nibble gives the nibble back. */
  lemma DigitValueOfHexDigit(n: bv8)
    requires n < 16
    ensures DigitValue(HexDigit(n)) == Some(n)
  {
    if n == 0 {
    } else if n == 1 {
    } else if n == 2 {
    } else if n == 3 {
    } else if n == 4 {
    } else if n == 5 {
    } else if n == 6 {
    } else if n == 7 {
    } else if n == 8 {
    } else if n == 9 {
    } else if n == 10 {
    } else if n == 11 {
    } else if n == 12 {
    } else if n == 13 {
    } else if n == 14 {
    } else if n == 15 {
    }
  }

  /** HexDigit is the HEX_DIGITS table. */
  lemma HexDigitIsTable(n: bv8)
    requires n < 16
    ensures HEX_DIGITS[n as int] == HexDigit(n)
  {
    if n == 0 {
    } else if n == 1 {
    } else if n == 2 {
    } else if n == 3 {
    } else if n == 4 {
    } else if n == 5 {
    } else if n == 6 {
    } else if n == 7 {
    } else if n == 8 {
    } else if n == 9 {
    } else if n == 10 {
    } else if n == 11 {
    } else if n == 12 {
    } else if n == 13 {
    } else if n == 14 {
    } else if n == 15 {
    }
  }

  /** The two digits of one byte, high nibble first. */
  function ByteHex(b: bv8): string {
    [HexDigit((b & 0xF0) >> 4), HexDigit(b & 0x0F)]
  }

  /** The text binToHex produces. */
  function Hex(bin: seq<bv8>): (hex: string)
    ensures |hex| == 2 * |bin|
  {
    if bin == [] then "" else Hex(bin[..|bin| - 1]) + ByteHex(bin[|bin| - 1])
  }

  /** Character 2i is the high nibble of byte i and character 2i+1 its low nibble. */
  lemma {:induction false} HexAt(bin: seq<bv8>, i: nat)
    requires i < |bin|
    ensures Hex(bin)[2 * i] == HexDigit((bin[i] & 0xF0) >> 4)
    ensures Hex(bin)[2 * i + 1] == HexDigit(bin[i] & 0x0F)
  {
    if i < |bin| - 1 {
      HexAt(bin[..|bin| - 1], i);
    }
  }

  /** Every character of the output is one of the upper-case digits. */
  lemma HexIsUpperCase(bin: seq<bv8>)
    ensures forall j :: 0 <= j < |Hex(bin)| ==> IsHexDigit(Hex(bin)[j])
  {
    forall j | 0 <= j < |Hex(bin)| ensures IsHexDigit(Hex(bin)[j]) {
      HexAt(bin, j / 2);
    }
  }

  /** The byte written for the digit pair (hi, lo): (table[hi] << 4) + table[lo], cast to byte. */
  function PairByte(hi: bv8, lo: bv8): bv8 {
    (hi << 4) + lo
  }

  /** Both characters of every pair before the last odd character are in the table. */
  predicate Decodable(hex: string) {
    forall j :: 0 <= j < |hex| / 2 * 2 ==> DigitValue(hex[j]).Some?
  }

  /** What hexToBin returns: one byte per pair of digits; a trailing odd character is ignored. */
  function Unhex(hex: string): (r: Result<seq<bv8>, HexError>)
    ensures r.Ok? <==> Decodable(hex)
    ensures r.Ok? ==> |r.value| == |hex| / 2
  {
    if Decodable(hex) then
      Ok(seq(|hex| / 2, i requires 0 <= i < |hex| / 2 =>
        PairByte(DigitValue(hex[2 * i]).value, DigitValue(hex[2 * i + 1]).value)))
    else Err(NullPointer)
  }

  /** hexToBin(binToHex(b)) == b. */
  lemma HexRoundTrip(bin: seq<bv8>)
    ensures Unhex(Hex(bin)) == Ok(bin)
  {
    var hex := Hex(bin);
    forall j | 0 <= j < |hex| / 2 * 2 ensures DigitValue(hex[j]).Some? {
      HexAt(bin, j / 2);
    }
    assert Decodable(hex);
    var r := Unhex(hex).value;
    forall i | 0 <= i < |bin| ensures r[i] == bin[i] {
      UnhexAt(hex, i);
      HexAt(bin, i);
      ByteDecodes(bin[i]);
    }
    assert r == bin;
  }

  /** Byte i comes from the digits at 2i and 2i+1. */
  lemma UnhexAt(hex: string, i: nat)
    requires Decodable(hex) && i < |hex| / 2
    ensures 2 * i + 1 < |hex|
    ensures Unhex(hex).value[i] == PairByte(DigitValue(hex[2 * i]).value, DigitValue(hex[2 * i + 1]).value)
  {
  }

  /** The two digits of a byte, looked up and joined, give the byte back. */
  lemma ByteDecodes(b: bv8)
    ensures (b & 0xF0) >> 4 < 16 && b & 0x0F < 16
    ensures PairByte(DigitValue(HexDigit((b & 0xF0) >> 4)).value, DigitValue(HexDigit(b & 0x0F)).value) == b
  {
    DigitValueOfHexDigit((b & 0xF0) >> 4);
    DigitValueOfHexDigit(b & 0x0F);
    assert (((b & 0xF0) >> 4) << 4) + (b & 0x0F) == b;
  }

  /** Lower-case digits are not in the table, so input holding one in a pair fails. */
  lemma LowerCaseRejected(hex: string, j: nat)
    requires j < |hex| / 2 * 2 && 'a' <= hex[j] <= 'f'
    ensures Unhex(hex).Err?
  {
    assert DigitValue(hex[j]).None?;
  }

  /** A trailing odd character is ignored. */
  lemma OddCharacterIgnored(hex: string, c: char)
    requires |hex| % 2 == 0
    ensures Unhex(hex + [c]) == Unhex(hex)
  {
    var t := hex + [c];
    assert |t| / 2 == |hex| / 2;
    assert forall j :: 0 <= j < |hex| ==> t[j] == hex[j];
    assert Decodable(t) <==> Decodable(hex);
    if Decodable(hex) {
      assert Unhex(t).value == Unhex(hex).value;
    }
  }

  /** hexToBin, as its loop over digit pairs. */
  method HexToBin(hex: string) returns (r: Result<array<bv8>, HexError>)
    ensures r.Ok? <==> Unhex(hex).Ok?
    ensures r.Ok? ==> fresh(r.value) && r.value[..] == Unhex(hex).value
  {
    var len := |hex| / 2;
    var bin := new bv8[len];
    var i := 0;
    while i < len
      invariant 0 <= i <= len
      invariant forall j :: 0 <= j < 2 * i ==> DigitValue(hex[j]).Some?
      invariant forall k :: 0 <= k < i ==>
        bin[k] == PairByte(DigitValue(hex[2 * k]).value, DigitValue(hex[2 * k + 1]).value)
    {
      var j := i * 2;
      var hi := DigitValue(hex[j]);
      var lo := DigitValue(hex[j + 1]);
      if hi.None? || lo.None? {
        return Err(NullPointer);
      }
      bin[i] := PairByte(hi.value, lo.value);
      i := i + 1;
    }
    return Ok(bin);
  }

  /** binToHex, as its loop over the bytes. */
  method BinToHex(bin: array<bv8>) returns (hex: string)
    ensures hex == Hex(bin[..])
    ensures |hex| == 2 * bin.Length
  {
    hex := "";
    var i := 0;
    while i < bin.Length
      invariant 0 <= i <= bin.Length
      invariant hex == Hex(bin[..i])
    {
      assert bin[..i + 1][..i] == bin[..i];
      hex := hex + [HexDigit((bin[i] & 0xF0) >> 4)] + [HexDigit(bin[i] & 0x0F)];
      i := i + 1;
    }
    assert bin[..i] == bin[..];
  }
}
