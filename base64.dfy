/**
 * Base64 as section 4 of RFC 4648 defines it, decoded strictly: the input
 * is whole four-character quanta of alphabet characters, and only the last
 * quantum may end in one or two `=` pad characters. As in Python's
 * `base64.b64decode`, the unused low bits of a padded quantum are ignored.
 *
 * Decoding works in two layers: each character becomes a symbol (its value
 * 0..63, or 64 for the pad character), then each quantum of four symbols
 * becomes up to three bytes.
 */
module Base64 {
  import opened Wrappers

  /** A byte as Python's `bytes` indexing yields it. */
  type Byte = b: int | 0 <= b < 256

  /** The value of one alphabet character. */
  type Sextet = v: int | 0 <= v < 64

  /** A sextet, or `PadSymbol` for the pad character. */
  type Symbol = v: int | 0 <= v <= 64

  const Pad: char := '='
  const PadSymbol: Symbol := 64

  /** The character that encodes `v` (Table 1 of RFC 4648). */
  function CharOf(v: Sextet): char
  {
    if v < 26 then ('A' as int + v) as char
    else if v < 52 then ('a' as int + (v - 26)) as char
    else if v < 62 then ('0' as int + (v - 52)) as char
    else if v == 62 then '+'
    else '/'
  }

  /** The value of alphabet character `c`; `None` for any other character. */
  function ValueOf(c: char): (r: Option<Sextet>)
    ensures r.Some? ==> CharOf(r.value) == c
  {
    if 'A' <= c <= 'Z' then Some(c as int - 'A' as int)
    else if 'a' <= c <= 'z' then Some(c as int - 'a' as int + 26)
    else if '0' <= c <= '9' then Some(c as int - '0' as int + 52)
    else if c == '+' then Some(62)
    else if c == '/' then Some(63)
    else None
  }

  /** Every character of the alphabet decodes to the value it encodes. */
  lemma ValueOfCharOf(v: Sextet)
    ensures ValueOf(CharOf(v)) == Some(v)
  {
  }

  /** A character that `ValueOf` rejects is not in the alphabet. */
  lemma ValueOfRejectsOnlyNonAlphabet(c: char)
    requires ValueOf(c).None?
    ensures forall v: Sextet :: CharOf(v) != c
  {
  }

  function SymbolOf(c: char): (r: Option<Symbol>)
  {
    if c == Pad then Some(PadSymbol)
    else match ValueOf(c)
      case Some(v) => Some(v)
      case None => None
  }

  function CharOfSymbol(v: Symbol): char
  {
    if v == PadSymbol then Pad else CharOf(v)
  }

  /** The symbols of `s`, or `None` if a character is neither in the alphabet nor the pad. */
  function Symbols(s: string): (r: Option<seq<Symbol>>)
    ensures r.Some? ==> |r.value| == |s|
  {
    if s == [] then Some([])
    else
      match (SymbolOf(s[0]), Symbols(s[1..]))
      case (Some(v), Some(rest)) => Some([v] + rest)
      case _ => None
  }

  /** `Symbols` succeeds exactly when every character is an alphabet character or the pad, and maps each. */
  lemma {:induction false} SymbolsAt(s: string)
    ensures Symbols(s).Some? <==> forall i :: 0 <= i < |s| ==> SymbolOf(s[i]).Some?
    ensures Symbols(s).Some? ==> forall i :: 0 <= i < |s| ==> SymbolOf(s[i]) == Some(Symbols(s).value[i])
  {
    if s != [] {
      SymbolsAt(s[1..]);
      assert forall i :: 1 <= i < |s| ==> s[i] == s[1..][i - 1];
    }
  }

  function Chars(v: seq<Symbol>): (s: string)
  {
    seq(|v|, i requires 0 <= i < |v| => CharOfSymbol(v[i]))
  }

  lemma {:induction false} SymbolsOfChars(v: seq<Symbol>)
    ensures Symbols(Chars(v)) == Some(v)
  {
    if v != [] {
      var s := Chars(v);
      assert s[1..] == Chars(v[1..]);
      if v[0] != PadSymbol {
        ValueOfCharOf(v[0]);
      }
      SymbolsOfChars(v[1..]);
      assert v == [v[0]] + v[1..];
    }
  }

  /** The three bytes packed into the 24 bits of four sextets. */
  function Bytes3(v0: Sextet, v1: Sextet, v2: Sextet, v3: Sextet): seq<Byte>
  {
    [v0 * 4 + v1 / 16, (v1 % 16) * 16 + v2 / 4, (v2 % 4) * 64 + v3]
  }

  /** A quantum that is not the last: four sextets, three bytes. */
  function DecodeFull(q: seq<Symbol>): (r: Option<seq<Byte>>)
    requires |q| == 4
    ensures r.Some? ==> |r.value| == 3
  {
    if q[0] < 64 && q[1] < 64 && q[2] < 64 && q[3] < 64 then Some(Bytes3(q[0], q[1], q[2], q[3]))
    else None
  }

  /** The last quantum, which may end in one pad (two bytes) or two pads (one byte). */
  function DecodeFinal(q: seq<Symbol>): (r: Option<seq<Byte>>)
    requires |q| == 4
    ensures r.Some? ==> 1 <= |r.value| <= 3
  {
    if q[0] < 64 && q[1] < 64 && q[2] == PadSymbol && q[3] == PadSymbol then
      Some(Bytes3(q[0], q[1], 0, 0)[..1])
    else if q[0] < 64 && q[1] < 64 && q[2] < 64 && q[3] == PadSymbol then
      Some(Bytes3(q[0], q[1], q[2], 0)[..2])
    else
      DecodeFull(q)
  }

  /** The bytes of a symbol sequence, quantum by quantum; a short last quantum is rejected. */
  function DecodeSymbols(v: seq<Symbol>): (r: Option<seq<Byte>>)
    decreases |v|
  {
    if |v| == 0 then Some([])
    else if |v| < 4 then None
    else if |v| == 4 then DecodeFinal(v)
    else
      var head := DecodeFull(v[..4]);
      var tail := DecodeSymbols(v[4..]);
      if head.Some? && tail.Some? then Some(head.value + tail.value) else None
  }

  /**
   * Strict decoding of `s`. A character outside the alphabet, a length that
   * is not a multiple of four, or a pad character anywhere but at the end
   * of the last quantum is rejected.
   */
  function Decode(s: string): (r: Option<seq<Byte>>)
    ensures r.Some? ==> forall i :: 0 <= i < |s| ==> s[i] == Pad || ValueOf(s[i]).Some?
    ensures r.Some? ==> forall i :: 0 <= i < |s| - 2 ==> s[i] != Pad
  {
    match Symbols(s)
    case None => None
    case Some(v) =>
      var r := DecodeSymbols(v);
      if r.Some? then SymbolsAt(s); DecodeSymbolsPadsAtEnd(v); r else r
  }

  /** In a decodable symbol sequence, only the last two symbols can be pads. */
  lemma {:induction false} DecodeSymbolsPadsAtEnd(v: seq<Symbol>)
    requires DecodeSymbols(v).Some?
    ensures forall i :: 0 <= i < |v| - 2 ==> v[i] < PadSymbol
    decreases |v|
  {
    if |v| > 4 {
      var head, tail := DecodeFull(v[..4]), DecodeSymbols(v[4..]);
      assert head.Some? && tail.Some?;
      DecodeSymbolsPadsAtEnd(v[4..]);
      forall i | 4 <= i < |v| - 2
        ensures v[i] < PadSymbol
      {
        assert v[i] == v[4..][i - 4];
      }
    }
  }

  /**
   * Only whole quanta decode, and each yields three bytes, except that the
   * last one yields one or two when padded.
   */
  lemma {:induction false} DecodeSymbolsLength(v: seq<Symbol>)
    requires DecodeSymbols(v).Some?
    ensures |v| % 4 == 0
    ensures 4 * |DecodeSymbols(v).value| <= 3 * |v| <= 4 * |DecodeSymbols(v).value| + 8
    decreases |v|
  {
    if |v| > 4 {
      var head, tail := DecodeFull(v[..4]), DecodeSymbols(v[4..]);
      assert head.Some? && tail.Some? && DecodeSymbols(v).value == head.value + tail.value;
      DecodeSymbolsLength(v[4..]);
      assert |DecodeSymbols(v).value| == 3 + |tail.value|;
      assert |v| == 4 + |v[4..]|;
      assert |v| % 4 == 0 by {
        var k := |v[4..]| / 4;
        assert |v[4..]| == 4 * k;
        assert |v| == 4 * (k + 1);
      }
    } else {
      assert |v| == 0 || |v| == 4;
    }
  }

  lemma DecodeLength(s: string)
    requires Decode(s).Some?
    ensures |s| % 4 == 0
    ensures 4 * |Decode(s).value| <= 3 * |s| <= 4 * |Decode(s).value| + 8
  {
    DecodeSymbolsLength(Symbols(s).value);
  }

  /** The symbols of the encoding of `b`, padded to whole quanta. */
  function EncodeSymbols(b: seq<Byte>): (v: seq<Symbol>)
    decreases |b|
  {
    if |b| == 0 then []
    else if |b| == 1 then
      [b[0] / 4, (b[0] % 4) * 16, PadSymbol, PadSymbol]
    else if |b| == 2 then
      [b[0] / 4, (b[0] % 4) * 16 + b[1] / 16, (b[1] % 16) * 4, PadSymbol]
    else
      Split3(b[0], b[1], b[2]) + EncodeSymbols(b[3..])
  }

  /** Three bytes split into four sextets. */
  function Split3(x: Byte, y: Byte, z: Byte): seq<Symbol>
  {
    [x / 4, (x % 4) * 16 + y / 16, (y % 16) * 4 + z / 64, z % 64]
  }

  /** The encoder of RFC 4648 section 4, which `Decode` inverts (`DecodeEncode`). */
  function Encode(b: seq<Byte>): string
  {
    Chars(EncodeSymbols(b))
  }

  /** Division by `k` undoes `k * q + r` for a remainder `r` below `k`. */
  lemma DivMod(q: int, r: int, k: int)
    requires k == 4 || k == 16 || k == 64
    requires 0 <= r < k
    ensures (k * q + r) / k == q && (k * q + r) % k == r
  {
  }

  /** Splitting three bytes into four sextets and packing them again is the identity. */
  lemma Bytes3OfSplit3(x: Byte, y: Byte, z: Byte)
    ensures DecodeFull(Split3(x, y, z)) == Some([x, y, z])
  {
    var v := Split3(x, y, z);
    DivMod(x % 4, y / 16, 16);
    DivMod(y % 16, z / 64, 4);
    assert (v[0] as int) * 4 + (v[1] as int) / 16 == x;
    assert ((v[1] as int) % 16) * 16 + (v[2] as int) / 4 == y;
    assert ((v[2] as int) % 4) * 64 + (v[3] as int) == z;
  }

  lemma SymbolRoundTripOne(x: Byte)
    ensures DecodeSymbols(EncodeSymbols([x])) == Some([x])
  {
    var v := EncodeSymbols([x]);
    assert v == [x / 4, (x % 4) * 16, PadSymbol, PadSymbol];
    DivMod(x % 4, 0, 16);
    assert (v[0] as int) * 4 + (v[1] as int) / 16 == x;
    assert DecodeSymbols(v) == DecodeFinal(v) == Some(Bytes3(v[0], v[1], 0, 0)[..1]);
    assert Bytes3(v[0], v[1], 0, 0)[..1] == [x];
  }

  lemma SymbolRoundTripTwo(x: Byte, y: Byte)
    ensures DecodeSymbols(EncodeSymbols([x, y])) == Some([x, y])
  {
    var v := EncodeSymbols([x, y]);
    assert v == [x / 4, (x % 4) * 16 + y / 16, (y % 16) * 4, PadSymbol];
    DivMod(x % 4, y / 16, 16);
    DivMod(y % 16, 0, 4);
    assert (v[0] as int) * 4 + (v[1] as int) / 16 == x;
    assert ((v[1] as int) % 16) * 16 + (v[2] as int) / 4 == y;
    assert DecodeSymbols(v) == DecodeFinal(v) == Some(Bytes3(v[0], v[1], v[2], 0)[..2]);
    assert Bytes3(v[0], v[1], v[2], 0)[..2] == [x, y];
  }

  /** A leading full quantum decodes on its own, ahead of the rest. */
  lemma DecodeQuantumThen(q: seq<Symbol>, t: seq<Symbol>)
    requires |q| == 4 && DecodeFull(q).Some?
    requires |t| > 0 && DecodeSymbols(t).Some?
    ensures DecodeSymbols(q + t) == Some(DecodeFull(q).value + DecodeSymbols(t).value)
  {
  }

  lemma {:induction false} SymbolRoundTrip(b: seq<Byte>)
    ensures DecodeSymbols(EncodeSymbols(b)) == Some(b)
    decreases |b|
  {
    if |b| == 1 {
      assert b == [b[0]];
      SymbolRoundTripOne(b[0]);
    } else if |b| == 2 {
      assert b == [b[0], b[1]];
      SymbolRoundTripTwo(b[0], b[1]);
    } else if |b| >= 3 {
      var q := Split3(b[0], b[1], b[2]);
      Bytes3OfSplit3(b[0], b[1], b[2]);
      assert EncodeSymbols(b) == q + EncodeSymbols(b[3..]);
      if |b| == 3 {
        assert EncodeSymbols(b) == q;
        assert b == [b[0], b[1], b[2]];
      } else {
        SymbolRoundTrip(b[3..]);
        DecodeQuantumThen(q, EncodeSymbols(b[3..]));
        assert b == [b[0], b[1], b[2]] + b[3..];
      }
    }
  }

  /** Decoding undoes encoding: every byte string survives the round trip. */
  lemma DecodeEncode(b: seq<Byte>)
    ensures Decode(Encode(b)) == Some(b)
  {
    SymbolsOfChars(EncodeSymbols(b));
    SymbolRoundTrip(b);
  }
}
