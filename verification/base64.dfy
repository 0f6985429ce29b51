/** The basic Base64 encoding of section 4 of RFC 4648: the 64-symbol alphabet
    A-Z a-z 0-9 + /, '=' padding to a multiple of four symbols, no line breaks
    (what java.util.Base64.getEncoder().encodeToString produces). */
module Base64 {
  import opened Wrappers

  /** One byte, as an unsigned value (Java's signed bytes encode by their bits). */
  type byte = x: int | 0 <= x < 256

  /** A six-bit group, the value one symbol stands for. */
  type sextet = x: int | 0 <= x < 64

  const Pad: char := '='

  /** The symbol for a six-bit value, after the table in section 4 of RFC 4648. */
  function Symbol(v: sextet): char
  {
    if v < 26 then ('A' as int + v) as char
    else if v < 52 then ('a' as int + (v - 26)) as char
    else if v < 62 then ('0' as int + (v - 52)) as char
    else if v == 62 then '+'
    else '/'
  }

  /** The value a symbol stands for; None for any character outside the alphabet, '=' included. */
  function SymbolValue(c: char): Option<sextet>
  {
    if 'A' <= c <= 'Z' then Some(c as int - 'A' as int)
    else if 'a' <= c <= 'z' then Some(c as int - 'a' as int + 26)
    else if '0' <= c <= '9' then Some(c as int - '0' as int + 52)
    else if c == '+' then Some(62)
    else if c == '/' then Some(63)
    else None
  }

  predicate IsSymbol(c: char)
  {
    SymbolValue(c).Some?
  }

  /** Every value has its own symbol, which reads back as that value and is never the pad. */
  lemma SymbolInverse(v: sextet)
    ensures SymbolValue(Symbol(v)) == Some(v)
    ensures Symbol(v) != Pad
  {
  }

  /** Three bytes, 24 bits, become four symbols. */
  function EncodeTriple(a: byte, b: byte, c: byte): seq<char>
  {
    [Symbol(a / 4), Symbol((a % 4) * 16 + b / 16), Symbol((b % 16) * 4 + c / 64), Symbol(c % 64)]
  }

  /** The whole input in groups of three; a final group of one or two bytes
      is zero-filled to whole symbols and padded with '=' to four. */
  function Encode(s: seq<byte>): seq<char>
    decreases |s|
  {
    if |s| == 0 then []
    else if |s| == 1 then [Symbol(s[0] / 4), Symbol((s[0] % 4) * 16), Pad, Pad]
    else if |s| == 2 then [Symbol(s[0] / 4), Symbol((s[0] % 4) * 16 + s[1] / 16), Symbol((s[1] % 16) * 4), Pad]
    else EncodeTriple(s[0], s[1], s[2]) + Encode(s[3..])
  }

  /** Number of pad characters for an input of n bytes. */
  function PadCount(n: nat): nat
  {
    (3 - n % 3) % 3
  }

  /** The output has 4 * ceil(n / 3) characters: symbols of the alphabet,
      followed by exactly PadCount(n) pad characters. */
  lemma {:induction false} EncodeShape(s: seq<byte>)
    ensures |Encode(s)| == 4 * ((|s| + 2) / 3)
    ensures PadCount(|s|) <= |Encode(s)|
    ensures forall i :: 0 <= i < |Encode(s)| - PadCount(|s|) ==> IsSymbol(Encode(s)[i])
    ensures forall i :: |Encode(s)| - PadCount(|s|) <= i < |Encode(s)| ==> Encode(s)[i] == Pad
    decreases |s|
  {
    if |s| >= 3 {
      EncodeShape(s[3..]);
      EncodeShapeStep(s);
    } else if |s| == 2 {
      EncodeShapeTwo(s);
    } else if |s| == 1 {
      EncodeShapeOne(s);
    }
  }

  /** A longer input: one full group in front of the encoding of the rest. */
  lemma EncodeShapeStep(s: seq<byte>)
    requires |s| >= 3
    requires |Encode(s[3..])| == 4 * ((|s| - 3 + 2) / 3)
    requires PadCount(|s| - 3) <= |Encode(s[3..])|
    requires forall i :: 0 <= i < |Encode(s[3..])| - PadCount(|s| - 3) ==> IsSymbol(Encode(s[3..])[i])
    requires forall i :: |Encode(s[3..])| - PadCount(|s| - 3) <= i < |Encode(s[3..])| ==> Encode(s[3..])[i] == Pad
    ensures |Encode(s)| == 4 * ((|s| + 2) / 3)
    ensures PadCount(|s|) <= |Encode(s)|
    ensures forall i :: 0 <= i < |Encode(s)| - PadCount(|s|) ==> IsSymbol(Encode(s)[i])
    ensures forall i :: |Encode(s)| - PadCount(|s|) <= i < |Encode(s)| ==> Encode(s)[i] == Pad
  {
    var head, tail := EncodeTriple(s[0], s[1], s[2]), Encode(s[3..]);
    EncodeTripleSymbols(s[0], s[1], s[2]);
    assert Encode(s) == head + tail;
    assert (|s| + 2) / 3 == (|s| - 3 + 2) / 3 + 1;
    assert PadCount(|s|) == PadCount(|s| - 3);
    SymbolsThenPads(head, tail, PadCount(|s|));
  }

  /** One byte: two symbols and two pads. */
  lemma EncodeShapeOne(s: seq<byte>)
    requires |s| == 1
    ensures |Encode(s)| == 4 && PadCount(|s|) == 2
    ensures IsSymbol(Encode(s)[0]) && IsSymbol(Encode(s)[1]) && Encode(s)[2] == Pad && Encode(s)[3] == Pad
  {
    SymbolInverse(s[0] / 4);
    SymbolInverse((s[0] % 4) * 16);
  }

  /** Two bytes: three symbols and one pad. */
  lemma EncodeShapeTwo(s: seq<byte>)
    requires |s| == 2
    ensures |Encode(s)| == 4 && PadCount(|s|) == 1
    ensures IsSymbol(Encode(s)[0]) && IsSymbol(Encode(s)[1]) && IsSymbol(Encode(s)[2]) && Encode(s)[3] == Pad
  {
    SymbolInverse(s[0] / 4);
    SymbolInverse((s[0] % 4) * 16 + s[1] / 16);
    SymbolInverse((s[1] % 16) * 4);
  }

  /** A full group is four symbols of the alphabet. */
  lemma EncodeTripleSymbols(a: byte, b: byte, c: byte)
    ensures forall i :: 0 <= i < 4 ==> IsSymbol(EncodeTriple(a, b, c)[i])
  {
    SymbolInverse(a / 4);
    SymbolInverse((a % 4) * 16 + b / 16);
    SymbolInverse((b % 16) * 4 + c / 64);
    SymbolInverse(c % 64);
  }

  /** Symbols in front of "symbols, then `pads` pad characters" keep that shape. */
  lemma SymbolsThenPads(head: seq<char>, tail: seq<char>, pads: nat)
    requires forall i :: 0 <= i < |head| ==> IsSymbol(head[i])
    requires pads <= |tail|
    requires forall i :: 0 <= i < |tail| - pads ==> IsSymbol(tail[i])
    requires forall i :: |tail| - pads <= i < |tail| ==> tail[i] == Pad
    ensures forall i :: 0 <= i < |head + tail| - pads ==> IsSymbol((head + tail)[i])
    ensures forall i :: |head + tail| - pads <= i < |head + tail| ==> (head + tail)[i] == Pad
  {
    forall i | 0 <= i < |head + tail| - pads
      ensures IsSymbol((head + tail)[i])
    {
      if i >= |head| {
        assert (head + tail)[i] == tail[i - |head|];
      }
    }
  }

  /** Four symbols, of which the last one or two may be pads when `last` says
      this is the final group. */
  function DecodeQuad(q: seq<char>, last: bool): Option<seq<byte>>
    requires |q| == 4
  {
    var v0, v1, v2, v3 := SymbolValue(q[0]), SymbolValue(q[1]), SymbolValue(q[2]), SymbolValue(q[3]);
    if v0.None? || v1.None? then None
    else if last && q[2] == Pad && q[3] == Pad then
      Some([v0.value * 4 + v1.value / 16])
    else if v2.None? then None
    else if last && q[3] == Pad then
      Some([v0.value * 4 + v1.value / 16, (v1.value % 16) * 16 + v2.value / 4])
    else if v3.None? then None
    else
      Some([v0.value * 4 + v1.value / 16, (v1.value % 16) * 16 + v2.value / 4, (v2.value % 4) * 64 + v3.value])
  }

  /** The decoder that Encode is the inverse of: groups of four symbols, pads only in the final group. */
  function Decode(s: seq<char>): Option<seq<byte>>
    decreases |s|
  {
    if |s| == 0 then Some([])
    else if |s| < 4 then None
    else match DecodeQuad(s[..4], |s| == 4)
      case None => None
      case Some(head) =>
        match Decode(s[4..])
        case None => None
        case Some(tail) => Some(head + tail)
  }

  /** The bit shuffling of one group undoes itself. */
  lemma TripleArithmetic(a: byte, b: byte, c: byte)
    ensures ((a % 4) * 16 + b / 16) / 16 == a % 4
    ensures ((a % 4) * 16 + b / 16) % 16 == b / 16
    ensures ((b % 16) * 4 + c / 64) / 4 == b % 16
    ensures ((b % 16) * 4 + c / 64) % 4 == c / 64
    ensures (a / 4) * 4 + a % 4 == a
    ensures (b / 16) * 16 + b % 16 == b
    ensures (c / 64) * 64 + c % 64 == c
  {
  }

  /** The bit shuffling of a final group of two bytes undoes itself. */
  lemma PairArithmetic(a: byte, b: byte)
    ensures (a / 4) * 4 + ((a % 4) * 16 + b / 16) / 16 == a
    ensures (((a % 4) * 16 + b / 16) % 16) * 16 + ((b % 16) * 4) / 4 == b
  {
    TripleArithmetic(a, b, 0);
  }

  lemma DecodeTriple(a: byte, b: byte, c: byte, last: bool)
    ensures DecodeQuad(EncodeTriple(a, b, c), last) == Some([a, b, c])
  {
    var q := EncodeTriple(a, b, c);
    SymbolInverse(a / 4);
    SymbolInverse((a % 4) * 16 + b / 16);
    SymbolInverse((b % 16) * 4 + c / 64);
    SymbolInverse(c % 64);
    TripleArithmetic(a, b, c);
  }

  /** The final group of one byte: two symbols and two pads. */
  lemma DecodeEncodeOne(s: seq<byte>)
    requires |s| == 1
    ensures Decode(Encode(s)) == Some(s)
  {
    var a := s[0];
    var e := Encode(s);
    assert e == [Symbol(a / 4), Symbol((a % 4) * 16), Pad, Pad];
    SymbolInverse(a / 4);
    SymbolInverse((a % 4) * 16);
    TripleArithmetic(a, 0, 0);
    assert (a / 4) * 4 + ((a % 4) * 16) / 16 == a;
    assert DecodeQuad(e, true) == Some([a]);
    assert e[..4] == e && e[4..] == [];
    assert Decode(e) == Some([a] + []);
    assert [a] + [] == s;
  }

  /** A final group of three symbols and a pad decodes to two bytes. */
  lemma DecodePaddedPair(v0: sextet, v1: sextet, v2: sextet)
    ensures DecodeQuad([Symbol(v0), Symbol(v1), Symbol(v2), Pad], true)
         == Some([v0 * 4 + v1 / 16, (v1 % 16) * 16 + v2 / 4])
  {
    SymbolInverse(v0);
    SymbolInverse(v1);
    SymbolInverse(v2);
  }

  /** The four symbols of a two-byte input decode, as a final group, to those two bytes. */
  lemma DecodeQuadOfTwo(a: byte, b: byte)
    ensures |Encode([a, b])| == 4
    ensures DecodeQuad(Encode([a, b]), true) == Some([a, b])
  {
    var v0, v1, v2 := a / 4, (a % 4) * 16 + b / 16, (b % 16) * 4;
    assert Encode([a, b]) == [Symbol(v0), Symbol(v1), Symbol(v2), Pad];
    DecodePaddedPair(v0, v1, v2);
    PairArithmetic(a, b);
  }

  /** The final group of two bytes: three symbols and one pad. */
  lemma DecodeEncodeTwo(s: seq<byte>)
    requires |s| == 2
    ensures Decode(Encode(s)) == Some(s)
  {
    assert s == [s[0], s[1]];
    DecodeQuadOfTwo(s[0], s[1]);
    var e := Encode(s);
    assert e[..4] == e && e[4..] == [];
    assert Decode(e) == Some(s + []);
    assert s + [] == s;
  }

  /** Round trip: decoding the encoding gives back exactly the input bytes. */
  lemma {:induction false} DecodeEncode(s: seq<byte>)
    ensures Decode(Encode(s)) == Some(s)
    decreases |s|
  {
    if |s| == 1 {
      DecodeEncodeOne(s);
    } else if |s| == 2 {
      DecodeEncodeTwo(s);
    } else if |s| >= 3 {
      var e := Encode(s);
      var head := EncodeTriple(s[0], s[1], s[2]);
      DecodeEncode(s[3..]);
      assert e == head + Encode(s[3..]);
      assert e[..4] == head;
      assert e[4..] == Encode(s[3..]);
      DecodeTriple(s[0], s[1], s[2], |e| == 4);
      assert [s[0], s[1], s[2]] + s[3..] == s;
    }
  }

  /** Different inputs never share an encoding. */
  lemma EncodeInjective(s: seq<byte>, t: seq<byte>)
    requires Encode(s) == Encode(t)
    ensures s == t
  {
    DecodeEncode(s);
    DecodeEncode(t);
  }
}
