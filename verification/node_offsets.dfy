/**
 * The NodeOffsets string of a migration metadata file: 16 hexadecimal
 * characters per node, the first 8 the node's external id and the last 8 the
 * byte offset of its data in the binary file.
 */
module NodeOffsets {

  const RECORD_WIDTH: nat := 16
  const FIELD_WIDTH: nat := 8

  predicate IsHexDigit(c: char)
  {
    ('0' <= c <= '9') || ('a' <= c <= 'f') || ('A' <= c <= 'F')
  }

  predicate AllHex(s: string)
  {
    forall i :: 0 <= i < |s| ==> IsHexDigit(s[i])
  }

  function DigitValue(c: char): (v: nat)
    requires IsHexDigit(c)
    ensures v < 16
  {
    if '0' <= c <= '9' then c as int - '0' as int
    else if 'a' <= c <= 'f' then c as int - 'a' as int + 10
    else c as int - 'A' as int + 10
  }

  /** The lower-case hexadecimal digit of a value below 16. */
  function HexDigit(v: nat): (c: char)
    requires v < 16
    ensures IsHexDigit(c) && DigitValue(c) == v
  {
    if v < 10 then ('0' as int + v) as char else ('a' as int + v - 10) as char
  }

  function Pow16(n: nat): (p: nat)
    ensures p > 0
  {
    if n == 0 then 1 else 16 * Pow16(n - 1)
  }

  /** The value of a string of hex digits, most significant first. */
  function HexValue(s: string): nat
    requires AllHex(s)
  {
    if s == [] then 0 else HexValue(s[..|s| - 1]) * 16 + DigitValue(s[|s| - 1])
  }

  /** The characters C's isspace accepts: blank, tab, newline, vertical tab, form feed, carriage return. */
  predicate IsSpace(c: char)
  {
    c == ' ' || ('\t' <= c <= '\r')
  }

  /** s with its leading white space skipped. */
  function SkipSpace(s: string): (t: string)
    ensures |t| <= |s|
  {
    if s != [] && IsSpace(s[0]) then SkipSpace(s[1..]) else s
  }

  /** s with an optional leading "0x" or "0X" removed. */
  function DropHexMark(s: string): (t: string)
    ensures |t| <= |s|
  {
    if |s| >= 2 && s[0] == '0' && (s[1] == 'x' || s[1] == 'X') then s[2..] else s
  }

  /** The leading run of hex digits of s: the digits a "%x" conversion reads. */
  function HexPrefix(s: string): (p: string)
    ensures AllHex(p) && |p| <= |s| && p == s[..|p|]
    ensures |p| < |s| ==> !IsHexDigit(s[|p|])
  {
    if s == [] || !IsHexDigit(s[0]) then [] else [s[0]] + HexPrefix(s[1..])
  }

  /** The optional sign and "0x" mark that follow the white space, as strtoul reads them in base 16. */
  function Unsigned(t: string): string
  {
    DropHexMark(if t != [] && (t[0] == '+' || t[0] == '-') then t[1..] else t)
  }

  /**
   * The number a "%x" conversion reads from s, which follows strtoul in base
   * 16: white space is skipped, then an optional sign and an optional 0x or
   * 0X, then the longest run of hex digits; a minus sign negates the number.
   * With no digits nothing is stored, and the target keeps its initial 0.
   */
  function ScanHex(s: string): (v: int)
    ensures s == [] || !(IsSpace(s[0]) || IsHexDigit(s[0]) || s[0] == '+' || s[0] == '-') ==> v == 0
    ensures AllHex(s) ==> v == HexValue(s)
  {
    var t := SkipSpace(s);
    var magnitude: int := HexValue(HexPrefix(Unsigned(t)));
    var v: int := if t != [] && t[0] == '-' then -magnitude else magnitude;
    DigitsOnly(s);
    v
  }

  /** A string of hex digits alone has no white space, sign or 0x mark, and all of it is read. */
  lemma DigitsOnly(s: string)
    ensures AllHex(s) ==> SkipSpace(s) == s && Unsigned(s) == s && HexPrefix(s) == s
  {
    if AllHex(s) && s != [] {
      assert IsHexDigit(s[0]) && !IsSpace(s[0]) && s[0] != '+' && s[0] != '-';
      if |s| >= 2 {
        assert IsHexDigit(s[1]) && s[1] != 'x' && s[1] != 'X';
      }
      assert DropHexMark(s) == s;
    }
    if AllHex(s) {
      HexPrefixOfAllHex(s);
    }
  }

  /** On a string of hex digits alone the scan reads the whole string. */
  lemma {:induction false} HexPrefixOfAllHex(s: string)
    requires AllHex(s)
    ensures HexPrefix(s) == s
  {
    if s != [] {
      HexPrefixOfAllHex(s[1..]);
    }
  }

  /** The n-digit lower-case hexadecimal text of v, most significant digit first. */
  function ToHex(v: nat, n: nat): (s: string)
    ensures |s| == n && AllHex(s)
  {
    if n == 0 then [] else ToHex(v / 16, n - 1) + [HexDigit(v % 16)]
  }

  lemma {:induction false} HexValueBound(s: string)
    requires AllHex(s)
    ensures HexValue(s) < Pow16(|s|)
  {
    if s != [] {
      HexValueBound(s[..|s| - 1]);
    }
  }

  lemma {:induction false} Pow16Monotone(m: nat, n: nat)
    requires m <= n
    ensures Pow16(m) <= Pow16(n)
  {
    if m < n {
      Pow16Monotone(m, n - 1);
    }
  }

  /**
   * An 8-character field reads as a number of at most 8 hex digits, so its
   * magnitude is below 2^32 and the 32-bit value stored from it is its
   * remainder modulo 2^32.
   */
  lemma FieldFitsInUint32(s: string)
    requires |s| == FIELD_WIDTH
    ensures -0x1_0000_0000 < ScanHex(s) < 0x1_0000_0000
  {
    var p := HexPrefix(Unsigned(SkipSpace(s)));
    HexValueBound(p);
    Pow16Monotone(|p|, FIELD_WIDTH);
    assert Pow16(FIELD_WIDTH) == 0x1_0000_0000;
  }

  /**
   * The value stored in the 32-bit node id or offset: the number read, with a
   * negative one wrapped modulo 2^32 as the unsigned conversion does.
   */
  function FieldValue(s: string): (v: nat)
    requires |s| == FIELD_WIDTH
    ensures v < 0x1_0000_0000
    ensures 0 <= ScanHex(s) ==> v == ScanHex(s)
    ensures ScanHex(s) < 0 ==> v == ScanHex(s) + 0x1_0000_0000
  {
    FieldFitsInUint32(s);
    var x := ScanHex(s);
    if x < 0 then x + 0x1_0000_0000 else x
  }

  /** White space before the number is skipped. */
  lemma ScanHexSkipsSpace(c: char, s: string)
    requires IsSpace(c)
    ensures ScanHex([c] + s) == ScanHex(s)
  {
    assert ([c] + s)[1..] == s;
  }

  /** A plus sign before the digits changes nothing, and a minus sign negates the number. */
  lemma ScanHexSign(s: string)
    requires s == [] || IsHexDigit(s[0])
    ensures ScanHex(['+'] + s) == ScanHex(s)
    ensures ScanHex(['-'] + s) == -ScanHex(s)
  {
    SignPassedOver('+', s);
    SignPassedOver('-', s);
    if s != [] {
      assert !IsSpace(s[0]) && s[0] != '+' && s[0] != '-';
    }
    assert SkipSpace(s) == s && Unsigned(s) == DropHexMark(s);
  }

  lemma SignPassedOver(sign: char, s: string)
    requires sign == '+' || sign == '-'
    ensures SkipSpace([sign] + s) == [sign] + s && Unsigned([sign] + s) == DropHexMark(s)
  {
    var m := [sign] + s;
    assert !IsSpace(m[0]);
    assert m[1..] == s;
  }

  /** A 0x or 0X mark before the digits is passed over. */
  lemma ScanHexMark(s: string)
    requires AllHex(s)
    ensures ScanHex("0x" + s) == HexValue(s)
    ensures ScanHex("0X" + s) == HexValue(s)
  {
    DigitsOnly(s);
    MarkPassedOver('x', s);
    MarkPassedOver('X', s);
  }

  lemma MarkPassedOver(x: char, s: string)
    requires x == 'x' || x == 'X'
    ensures Unsigned(SkipSpace(['0', x] + s)) == s
  {
    var m := ['0', x] + s;
    assert !IsSpace(m[0]) && m[0] != '+' && m[0] != '-';
    assert SkipSpace(m) == m;
    assert m[2..] == s;
  }

  /** A leading blank is skipped: " 000001f" stores 0x1f. */
  lemma BlankFieldExample()
    ensures FieldValue(" 000001f") == 31
  {
    var d := "000001f";
    assert " 000001f" == [' '] + d;
    HexText(31, 7, d);
    ScanHexSkipsSpace(' ', d);
  }

  /** A 0x mark is passed over: "0x00001f" stores 0x1f. */
  lemma MarkedFieldExample()
    ensures FieldValue("0x00001f") == 31
  {
    var d := "00001f";
    assert "0x00001f" == "0x" + d;
    HexText(31, 6, d);
    ScanHexMark(d);
  }

  /** A plus sign is passed over: "+000001f" stores 0x1f. */
  lemma PlusFieldExample()
    ensures FieldValue("+000001f") == 31
  {
    var d := "000001f";
    assert "+000001f" == ['+'] + d;
    HexText(31, 7, d);
    ScanHexSign(d);
  }

  /** A minus sign wraps: "-0000001" stores 2^32 - 1. */
  lemma MinusFieldExample()
    ensures FieldValue("-0000001") == 0xFFFF_FFFF
  {
    var d := "0000001";
    assert "-0000001" == ['-'] + d;
    HexText(1, 7, d);
    ScanHexSign(d);
  }

  /** A text that is the n-digit encoding of v reads as v. */
  lemma HexText(v: nat, n: nat, s: string)
    requires v < Pow16(n) && s == ToHex(v, n)
    ensures AllHex(s) && HexValue(s) == v
  {
    ToHexRoundTrip(v, n);
  }

  /** An n-digit hexadecimal text reads back as the value it was written from. */
  lemma {:induction false} ToHexRoundTrip(v: nat, n: nat)
    requires v < Pow16(n)
    ensures HexValue(ToHex(v, n)) == v
  {
    if n > 0 {
      var s := ToHex(v, n);
      var q, d := v / 16, v % 16;
      assert HexValue(s[..n - 1]) == q by {
        assert s[..n - 1] == ToHex(q, n - 1);
        QuotientBound(v, Pow16(n - 1));
        ToHexRoundTrip(q, n - 1);
      }
      assert DigitValue(s[n - 1]) == d by {
        assert s[n - 1] == HexDigit(d);
      }
      assert v == q * 16 + d;
    }
  }

  /** A text of len characters holds len / RECORD_WIDTH whole records. */
  lemma WholeRecords(len: nat, count: int)
    requires len / RECORD_WIDTH == count
    ensures 0 <= count && count * RECORD_WIDTH <= len
  {
  }

  /** Record n of count records lies inside a text that holds them all. */
  lemma RecordInside(n: nat, count: nat, len: nat)
    requires n < count && count * RECORD_WIDTH <= len
    ensures (n + 1) * RECORD_WIDTH <= len
  {
    assert (n + 1) * RECORD_WIDTH <= count * RECORD_WIDTH;
  }

  lemma QuotientBound(v: nat, p: nat)
    requires v < 16 * p
    ensures v / 16 < p
  {
  }

  /** The text of one NodeOffsets record. */
  function EncodeRecord(nodeId: nat, offset: nat): (s: string)
    ensures |s| == RECORD_WIDTH && AllHex(s)
  {
    ToHex(nodeId, FIELD_WIDTH) + ToHex(offset, FIELD_WIDTH)
  }

  /** The node id and offset read from the n-th 16-character record. */
  function DecodeRecord(s: string, n: nat): (r: (nat, nat))
    requires (n + 1) * RECORD_WIDTH <= |s|
    ensures r.0 < 0x1_0000_0000 && r.1 < 0x1_0000_0000
  {
    var start := n * RECORD_WIDTH;
    (FieldValue(s[start..start + FIELD_WIDTH]), FieldValue(s[start + FIELD_WIDTH..start + RECORD_WIDTH]))
  }

  /**
   * The offsets map filled record by record for the first count records; a
   * node id that appears again takes the later offset.
   */
  function DecodeOffsets(s: string, count: nat): (m: map<nat, nat>)
    requires count * RECORD_WIDTH <= |s|
    ensures forall id :: id in m ==> id < 0x1_0000_0000 && m[id] < 0x1_0000_0000
  {
    if count == 0 then map[]
    else
      var (id, off) := DecodeRecord(s, count - 1);
      DecodeOffsets(s, count - 1)[id := off]
  }

  /** One more record updates the map at that record's node id. */
  lemma DecodeOffsetsStep(s: string, n: nat)
    requires (n + 1) * RECORD_WIDTH <= |s|
    ensures DecodeOffsets(s, n + 1) == DecodeOffsets(s, n)[DecodeRecord(s, n).0 := DecodeRecord(s, n).1]
  {
  }

  /** A 32-bit value survives being written as 8 hex digits and read back. */
  lemma FieldRoundTrip(v: nat)
    requires v < 0x1_0000_0000
    ensures ScanHex(ToHex(v, FIELD_WIDTH)) == v && FieldValue(ToHex(v, FIELD_WIDTH)) == v
  {
    assert Pow16(FIELD_WIDTH) == 0x1_0000_0000;
    ToHexRoundTrip(v, FIELD_WIDTH);
  }

  /** A record decodes as the 32-bit node id followed by the 32-bit offset it was written from. */
  lemma RecordRoundTrip(prefix: string, nodeId: nat, offset: nat, suffix: string)
    requires nodeId < 0x1_0000_0000 && offset < 0x1_0000_0000
    requires |prefix| % RECORD_WIDTH == 0
    ensures var s := prefix + EncodeRecord(nodeId, offset) + suffix;
            (|prefix| / RECORD_WIDTH + 1) * RECORD_WIDTH <= |s| &&
            DecodeRecord(s, |prefix| / RECORD_WIDTH) == (nodeId, offset)
  {
    var s := prefix + EncodeRecord(nodeId, offset) + suffix;
    var n := |prefix| / RECORD_WIDTH;
    assert n * RECORD_WIDTH == |prefix|;
    assert s[n * RECORD_WIDTH..n * RECORD_WIDTH + FIELD_WIDTH] == ToHex(nodeId, FIELD_WIDTH);
    assert s[n * RECORD_WIDTH + FIELD_WIDTH..n * RECORD_WIDTH + RECORD_WIDTH] == ToHex(offset, FIELD_WIDTH);
    FieldRoundTrip(nodeId);
    FieldRoundTrip(offset);
  }

  /** The text of a whole NodeOffsets string, one record per (node id, offset) pair. */
  function EncodeOffsets(pairs: seq<(nat, nat)>): (s: string)
    ensures |s| == RECORD_WIDTH * |pairs| && AllHex(s)
  {
    if pairs == [] then [] else EncodeOffsets(pairs[..|pairs| - 1]) + EncodeRecord(pairs[|pairs| - 1].0, pairs[|pairs| - 1].1)
  }

  /** The map the pairs describe, a later pair for the same node winning. */
  function PairsToMap(pairs: seq<(nat, nat)>): map<nat, nat>
  {
    if pairs == [] then map[] else PairsToMap(pairs[..|pairs| - 1])[pairs[|pairs| - 1].0 := pairs[|pairs| - 1].1]
  }

  /**
   * Decoding an encoded NodeOffsets string gives back exactly the offsets
   * map of the pairs it was written from, whatever text follows.
   */
  lemma {:induction false} OffsetsRoundTrip(pairs: seq<(nat, nat)>, suffix: string)
    requires forall i :: 0 <= i < |pairs| ==> pairs[i].0 < 0x1_0000_0000 && pairs[i].1 < 0x1_0000_0000
    ensures var s := EncodeOffsets(pairs) + suffix;
            |s| >= RECORD_WIDTH * |pairs| && DecodeOffsets(s, |pairs|) == PairsToMap(pairs)
  {
    if pairs != [] {
      var k := |pairs| - 1;
      var init := pairs[..k];
      var (id, off) := pairs[k];
      EncodeSnoc(pairs, suffix);
      OffsetsRoundTrip(init, EncodeRecord(id, off) + suffix);
      LastRecordDecodes(init, id, off, suffix);
    }
  }

  /** Encoding a non-empty list is encoding all but its last pair, then the last record. */
  lemma EncodeSnoc(pairs: seq<(nat, nat)>, suffix: string)
    requires pairs != []
    ensures var k := |pairs| - 1;
            EncodeOffsets(pairs) + suffix == EncodeOffsets(pairs[..k]) + (EncodeRecord(pairs[k].0, pairs[k].1) + suffix)
  {
  }

  /** The record written after the encoding of init is read back as record number |init|. */
  lemma LastRecordDecodes(init: seq<(nat, nat)>, id: nat, off: nat, suffix: string)
    requires id < 0x1_0000_0000 && off < 0x1_0000_0000
    ensures var s := EncodeOffsets(init) + (EncodeRecord(id, off) + suffix);
            (|init| + 1) * RECORD_WIDTH <= |s| && DecodeRecord(s, |init|) == (id, off)
  {
    var p := EncodeOffsets(init);
    assert p + (EncodeRecord(id, off) + suffix) == p + EncodeRecord(id, off) + suffix;
    assert |p| / RECORD_WIDTH == |init|;
    RecordRoundTrip(p, id, off, suffix);
  }

  /** The first count records of a NodeOffsets string, in order. */
  function Records(s: string, count: nat): (r: seq<(nat, nat)>)
    requires count * RECORD_WIDTH <= |s|
    ensures |r| == count && forall n :: 0 <= n < count ==> r[n] == DecodeRecord(s, n)
  {
    seq(count, n requires 0 <= n < count => DecodeRecord(s, n))
  }

  /** Decoding fills the map exactly as the records, read in order, describe it. */
  lemma {:induction false} DecodeIsPairsToMap(s: string, count: nat)
    requires count * RECORD_WIDTH <= |s|
    ensures DecodeOffsets(s, count) == PairsToMap(Records(s, count))
  {
    if count > 0 {
      DecodeIsPairsToMap(s, count - 1);
      RecordsPrefix(s, count);
      var r := Records(s, count);
      assert PairsToMap(r) == PairsToMap(r[..count - 1])[r[count - 1].0 := r[count - 1].1];
    }
  }

  /** The records before the last one are the records of the shorter count. */
  lemma RecordsPrefix(s: string, count: nat)
    requires 0 < count && count * RECORD_WIDTH <= |s|
    ensures Records(s, count)[..count - 1] == Records(s, count - 1)
    ensures Records(s, count)[count - 1] == DecodeRecord(s, count - 1)
  {
    var r, init := Records(s, count), Records(s, count - 1);
    forall n | 0 <= n < count - 1 ensures r[..count - 1][n] == init[n] {
      assert r[n] == DecodeRecord(s, n) == init[n];
    }
  }

  /** A node id is a key of the map of some pairs exactly when some pair names it. */
  lemma {:induction false} PairsKeys(pairs: seq<(nat, nat)>, id: nat)
    ensures id in PairsToMap(pairs) <==> exists n :: 0 <= n < |pairs| && pairs[n].0 == id
  {
    if pairs != [] {
      var k := |pairs| - 1;
      PairsKeys(pairs[..k], id);
      if pairs[k].0 != id {
        if n :| 0 <= n < |pairs| && pairs[n].0 == id {
          assert n < k && pairs[..k][n].0 == id;
        }
      } else {
        assert pairs[k].0 == id;
      }
    }
  }

  /** A key is mapped to the value of the last pair that names it. */
  lemma {:induction false} PairsLastWins(pairs: seq<(nat, nat)>, id: nat)
    requires id in PairsToMap(pairs)
    ensures exists n :: 0 <= n < |pairs| && pairs[n] == (id, PairsToMap(pairs)[id]) &&
              forall m :: n < m < |pairs| ==> pairs[m].0 != id
  {
    var k := |pairs| - 1;
    if pairs[k].0 == id {
      assert pairs[k] == (id, PairsToMap(pairs)[id]);
    } else {
      PairsLastWins(pairs[..k], id);
      var n :| 0 <= n < k && pairs[..k][n] == (id, PairsToMap(pairs[..k])[id]) &&
        forall m :: n < m < k ==> pairs[..k][m].0 != id;
      assert pairs[n] == (id, PairsToMap(pairs)[id]);
      assert forall m :: n < m < |pairs| ==> pairs[m].0 != id by {
        forall m | n < m < |pairs| ensures pairs[m].0 != id {
          if m < k {
            assert pairs[..k][m] == pairs[m];
          }
        }
      }
    }
  }

  /**
   * The offsets map holds exactly the node ids of the first count records,
   * each with the offset of the last record that names it.
   */
  lemma DecodeOffsetsLastWins(s: string, count: nat, id: nat)
    requires count * RECORD_WIDTH <= |s|
    ensures id in DecodeOffsets(s, count) <==> exists n :: 0 <= n < count && DecodeRecord(s, n).0 == id
    ensures id in DecodeOffsets(s, count) ==>
      exists n :: 0 <= n < count && DecodeRecord(s, n) == (id, DecodeOffsets(s, count)[id]) &&
        forall m :: n < m < count ==> DecodeRecord(s, m).0 != id
  {
    var r := Records(s, count);
    DecodeIsPairsToMap(s, count);
    PairsKeys(r, id);
    if id in DecodeOffsets(s, count) {
      PairsLastWins(r, id);
    }
  }
}
