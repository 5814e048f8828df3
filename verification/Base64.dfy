/**
 Base64 (sections 4 and 5 of RFC 4648): encoding bytes as text, and decoding text with a
 given or a detected alphabet, into a new buffer or over the text itself. The symbols and
 the bits kept from one symbol to the next are computed on bytes as eight-bit vectors, with
 the shifts and masks of the source.
 */
module Base64 {
  import opened Sequences
  import opened Options

  type Byte = bv8

  datatype Alphabet = Auto | Standard | UrlFilenameSafe

  datatype Behavior = Moderate | Loose

  const PAD := '='

  // ----- the alphabets -----

  /** The symbol of the six-bit value `v`; only the last two differ between the alphabets. */
  function Symbol(alphabet: Alphabet, v: Byte): (c: char)
    requires v < 64
    ensures c != PAD
  {
    if v < 26 then ('A' as int + v as int) as char
    else if v < 52 then ('a' as int + v as int - 26) as char
    else if v < 62 then ('0' as int + v as int - 52) as char
    else if v == 62 then (if alphabet == UrlFilenameSafe then '-' else '+')
    else if alphabet == UrlFilenameSafe then '_' else '/'
  }

  /** `_base64_value`: the value of a symbol, and the alphabet from there on. */
  function Value(alphabet: Alphabet, c: char): Option<(Byte, Alphabet)> {
    if 'A' <= c <= 'Z' then Some(((c as int - 'A' as int) as Byte, alphabet))
    else if 'a' <= c <= 'z' then Some(((c as int - 'a' as int + 26) as Byte, alphabet))
    else if '0' <= c <= '9' then Some(((c as int - '0' as int + 52) as Byte, alphabet))
    else if (c == '+' || c == '/') && alphabet != UrlFilenameSafe then Some((if c == '+' then 62 else 63, Standard))
    else if (c == '-' || c == '_') && alphabet != Standard then Some((if c == '-' then 62 else 63, UrlFilenameSafe))
    else None
  }

  /** A decoder set to `alphabet` reads what is encoded with `encoded`. */
  predicate Reads(alphabet: Alphabet, encoded: Alphabet) {
    alphabet == Auto || (alphabet == UrlFilenameSafe <==> encoded == UrlFilenameSafe)
  }

  lemma ValueOfCommonSymbol(alphabet: Alphabet, encoded: Alphabet, v: Byte)
    requires v < 62
    ensures Value(alphabet, Symbol(encoded, v)) == Some((v, alphabet))
  {
  }

  lemma ValueOfOwnSymbol(alphabet: Alphabet, encoded: Alphabet, v: Byte)
    requires (v == 62 || v == 63) && Reads(alphabet, encoded)
    ensures var next := if encoded == UrlFilenameSafe then UrlFilenameSafe else Standard;
            Value(alphabet, Symbol(encoded, v)) == Some((v, next)) && Reads(next, encoded)
  {
  }

  // ----- the tables of sections 4 and 5 -----

  const UPPER := "ABCDEFGHIJKLMNOPQRSTUVWXYZ"
  const LOWER := "abcdefghijklmnopqrstuvwxyz"
  const DIGITS := "0123456789"

  function Table(alphabet: Alphabet): (table: string)
    ensures |table| == 64
  {
    UPPER + LOWER + DIGITS + if alphabet == UrlFilenameSafe then "-_" else "+/"
  }

  lemma LettersInOrder(n: nat)
    ensures n < 26 ==> UPPER[n] == ('A' as int + n) as char && LOWER[n] == ('a' as int + n) as char
    ensures n < 10 ==> DIGITS[n] == ('0' as int + n) as char
  {
  }

  lemma InTable(alphabet: Alphabet, n: nat)
    requires n < 64
    ensures Table(alphabet)[n] ==
            if n < 26 then UPPER[n] else if n < 52 then LOWER[n - 26] else if n < 62 then DIGITS[n - 52]
            else if alphabet == UrlFilenameSafe then "-_"[n - 62] else "+/"[n - 62]
  {
  }

  lemma SymbolIsTabled(alphabet: Alphabet, v: Byte)
    requires v < 64
    ensures Symbol(alphabet, v) == Table(alphabet)[v]
  {
    var n := v as int;
    InTable(alphabet, n);
    LettersInOrder(if n < 26 then n else if n < 52 then n - 26 else if n < 62 then n - 52 else 0);
  }

  lemma SymbolOfValue(alphabet: Alphabet, c: char)
    requires Value(alphabet, c).Some?
    ensures var (v, next) := Value(alphabet, c).value;
            v < 64 && c == Symbol(next, v) &&
            if v < 62 then next == alphabet else next != Auto && (alphabet == Auto || alphabet == next)
  {
    if 'A' <= c <= 'Z' {
      SymbolAt(alphabet, c as int - 'A' as int);
    } else if 'a' <= c <= 'z' {
      SymbolAt(alphabet, c as int - 'a' as int + 26);
    } else if '0' <= c <= '9' {
      SymbolAt(alphabet, c as int - '0' as int + 52);
    } else {
      LastTwoOfValue(alphabet, c);
    }
  }

  lemma LastTwoOfValue(alphabet: Alphabet, c: char)
    requires Value(alphabet, c).Some? && c in "+/-_"
    ensures var (v, next) := Value(alphabet, c).value;
            62 <= v < 64 && c == Symbol(next, v) && next != Auto && (alphabet == Auto || alphabet == next)
  {
  }

  lemma SymbolAt(alphabet: Alphabet, n: nat)
    requires n < 62
    ensures (n as Byte) < 62
    ensures Symbol(alphabet, n as Byte) ==
            if n < 26 then ('A' as int + n) as char
            else if n < 52 then ('a' as int + n - 26) as char
            else ('0' as int + n - 52) as char
  {
    assert (n as Byte) as int == n;
  }

  lemma ValueOfSymbol(alphabet: Alphabet, v: Byte, next: Alphabet)
    requires v < 64
    requires if v < 62 then next == alphabet else next != Auto && (alphabet == Auto || alphabet == next)
    ensures Value(alphabet, Symbol(next, v)) == Some((v, next))
  {
    if v < 62 {
      ValueOfCommonSymbol(alphabet, next, v);
    } else {
      ValueOfOwnSymbol(alphabet, next, v);
    }
  }

  /**
   The value of a character is its place in the table. The first symbol in which the tables
   differ decides on one of them when the alphabet is still to be detected.
   */
  lemma ValueIsPlace(alphabet: Alphabet, c: char, v: Byte, next: Alphabet)
    ensures Value(alphabet, c) == Some((v, next)) <==>
            v < 64 && c == Table(next)[v] &&
            if v < 62 then next == alphabet else next != Auto && (alphabet == Auto || alphabet == next)
  {
    if Value(alphabet, c) == Some((v, next)) {
      SymbolOfValue(alphabet, c);
      SymbolIsTabled(next, v);
    } else if v < 64 && if v < 62 then next == alphabet else next != Auto && (alphabet == Auto || alphabet == next) {
      SymbolIsTabled(next, v);
      ValueOfSymbol(alphabet, v, next);
    }
  }

  // ----- encoding -----

  function First(a: Byte): (v: Byte)
    ensures v < 64
  {
    (a >> 2) & 0x3f
  }

  function Second(a: Byte, b: Byte): (v: Byte)
    ensures v < 64
  {
    ((a & 0x3) << 4) | ((b >> 4) & 0x0f)
  }

  function Third(b: Byte, c: Byte): (v: Byte)
    ensures v < 64
  {
    ((b & 0xf) << 2) | ((c >> 6) & 0x03)
  }

  function Fourth(c: Byte): (v: Byte)
    ensures v < 64
  {
    c & 0x3f
  }

  /** Three bytes become four symbols; one or two bytes at the end are padded. */
  function Encode(alphabet: Alphabet, bytes: seq<Byte>): string {
    if bytes == [] then ""
    else if |bytes| == 1 then
      [Symbol(alphabet, First(bytes[0])), Symbol(alphabet, Second(bytes[0], 0)), PAD, PAD]
    else if |bytes| == 2 then
      [Symbol(alphabet, First(bytes[0])), Symbol(alphabet, Second(bytes[0], bytes[1])),
       Symbol(alphabet, Third(bytes[1], 0)), PAD]
    else Group(alphabet, bytes[0], bytes[1], bytes[2]) + Encode(alphabet, bytes[3..])
  }

  function Group(alphabet: Alphabet, a: Byte, b: Byte, c: Byte): (s: string)
    ensures |s| == 4
  {
    [Symbol(alphabet, First(a)), Symbol(alphabet, Second(a, b)), Symbol(alphabet, Third(b, c)), Symbol(alphabet, Fourth(c))]
  }

  /** The four symbols of a group hold the bits of its three bytes, most significant first. */
  lemma GroupBits(a: Byte, b: Byte, c: Byte)
    ensures (((First(a) as bv24) << 18) | ((Second(a, b) as bv24) << 12) | ((Third(b, c) as bv24) << 6) | (Fourth(c) as bv24)) ==
            (((a as bv24) << 16) | ((b as bv24) << 8) | (c as bv24))
  {
  }

  // ----- decoding -----

  /** The byte that the last `bits` bits kept and the next six give. */
  function ByteOf(last: Byte, bits: nat, part: Byte): Byte
    requires 2 <= bits <= 6
  {
    (last << (8 - bits)) | (part >> (bits - 2))
  }

  predicate IsBits(bits: nat) {
    bits <= 6 && bits % 2 == 0
  }

  predicate AllPads(s: string) {
    forall i | 0 <= i < |s| :: s[i] == PAD
  }

  /** Decoding from here on, with `bits` bits of `last` not written yet. */
  function DecodeFrom(alphabet: Alphabet, behavior: Behavior, last: Byte, bits: nat, s: string): Option<seq<Byte>>
    requires IsBits(bits)
    decreases |s|
  {
    if s == "" then Some([])
    else if s[0] == PAD then (if behavior == Loose || AllPads(s[1..]) then Some([]) else None)
    else match Value(alphabet, s[0])
      case None => None
      case Some((part, next)) => Put(last, bits, part, DecodeFrom(next, behavior, part, Left(bits), s[1..]))
  }

  /** The bits left when six more have come. */
  function Left(bits: nat): nat
    requires IsBits(bits)
  {
    if bits + 6 >= 8 then bits - 2 else bits + 6
  }

  /** Six bits give a byte unless none were left before. */
  function Put(last: Byte, bits: nat, part: Byte, rest: Option<seq<Byte>>): Option<seq<Byte>>
    requires IsBits(bits)
  {
    if bits + 6 >= 8 then Prepend(ByteOf(last, bits, part), rest) else rest
  }

  function Prepend(b: Byte, rest: Option<seq<Byte>>): Option<seq<Byte>> {
    if rest.None? then None else Some([b] + rest.value)
  }

  function Decode(alphabet: Alphabet, behavior: Behavior, s: string): Option<seq<Byte>> {
    DecodeFrom(alphabet, behavior, 0, 0, s)
  }

  // ----- round trip -----

  lemma BytesOfParts(a: Byte, b: Byte, c: Byte)
    ensures ByteOf(First(a), 6, Second(a, b)) == a
    ensures ByteOf(Second(a, b), 4, Third(b, c)) == b
    ensures ByteOf(Third(b, c), 2, Fourth(c)) == c
  {
  }

  /** Reading one symbol. */
  lemma DecodeSymbol(alphabet: Alphabet, encoded: Alphabet, behavior: Behavior, last: Byte, bits: nat, v: Byte, s: string)
    returns (next: Alphabet)
    requires v < 64 && Reads(alphabet, encoded) && IsBits(bits)
    ensures Reads(next, encoded)
    ensures DecodeFrom(alphabet, behavior, last, bits, [Symbol(encoded, v)] + s) ==
            if bits == 0 then DecodeFrom(next, behavior, v, 6, s)
            else Prepend(ByteOf(last, bits, v), DecodeFrom(next, behavior, v, bits - 2, s))
  {
    if v < 62 {
      ValueOfCommonSymbol(alphabet, encoded, v);
    } else {
      assert v == 62 || v == 63;
      ValueOfOwnSymbol(alphabet, encoded, v);
    }
    next := Value(alphabet, Symbol(encoded, v)).value.1;
    assert ([Symbol(encoded, v)] + s)[1..] == s;
  }

  /** The first two symbols of a group give its first byte. */
  lemma DecodeFirst(alphabet: Alphabet, encoded: Alphabet, behavior: Behavior, last: Byte, a: Byte, b: Byte, s: string)
    returns (next: Alphabet)
    requires Reads(alphabet, encoded)
    ensures Reads(next, encoded)
    ensures DecodeFrom(alphabet, behavior, last, 0, [Symbol(encoded, First(a)), Symbol(encoded, Second(a, b))] + s) ==
            Prepend(a, DecodeFrom(next, behavior, Second(a, b), 4, s))
  {
    next := DecodeSymbol(alphabet, encoded, behavior, last, 0, First(a), [Symbol(encoded, Second(a, b))] + s);
    next := DecodeSymbol(next, encoded, behavior, First(a), 6, Second(a, b), s);
    BytesOfParts(a, b, 0);
    assert [Symbol(encoded, First(a)), Symbol(encoded, Second(a, b))] + s ==
           [Symbol(encoded, First(a))] + ([Symbol(encoded, Second(a, b))] + s);
  }

  /** The next symbol gives the second byte. */
  lemma DecodeSecond(alphabet: Alphabet, encoded: Alphabet, behavior: Behavior, a: Byte, b: Byte, c: Byte, s: string)
    returns (next: Alphabet)
    requires Reads(alphabet, encoded)
    ensures Reads(next, encoded)
    ensures DecodeFrom(alphabet, behavior, Second(a, b), 4, [Symbol(encoded, Third(b, c))] + s) ==
            Prepend(b, DecodeFrom(next, behavior, Third(b, c), 2, s))
  {
    next := DecodeSymbol(alphabet, encoded, behavior, Second(a, b), 4, Third(b, c), s);
    BytesOfParts(a, b, c);
  }

  lemma DecodeThird(alphabet: Alphabet, encoded: Alphabet, behavior: Behavior, b: Byte, c: Byte, s: string)
    returns (next: Alphabet)
    requires Reads(alphabet, encoded)
    ensures Reads(next, encoded)
    ensures DecodeFrom(alphabet, behavior, Third(b, c), 2, [Symbol(encoded, Fourth(c))] + s) ==
            Prepend(c, DecodeFrom(next, behavior, Fourth(c), 0, s))
  {
    next := DecodeSymbol(alphabet, encoded, behavior, Third(b, c), 2, Fourth(c), s);
    BytesOfParts(0, b, c);
  }

  lemma DecodePads(alphabet: Alphabet, behavior: Behavior, last: Byte, bits: nat, s: string)
    requires IsBits(bits) && AllPads(s)
    ensures DecodeFrom(alphabet, behavior, last, bits, s) == Some([])
  {
  }

  lemma DecodeGroup(alphabet: Alphabet, encoded: Alphabet, behavior: Behavior, last: Byte,
                    a: Byte, b: Byte, c: Byte, s: string)
    returns (next: Alphabet)
    requires Reads(alphabet, encoded)
    ensures Reads(next, encoded)
    ensures DecodeFrom(alphabet, behavior, last, 0, Group(encoded, a, b, c) + s) ==
            Prepend(a, Prepend(b, Prepend(c, DecodeFrom(next, behavior, Fourth(c), 0, s))))
  {
    var fourth := [Symbol(encoded, Fourth(c))] + s;
    var third := [Symbol(encoded, Third(b, c))] + fourth;
    GroupThen(encoded, a, b, c, s);
    next := DecodeFirst(alphabet, encoded, behavior, last, a, b, third);
    next := DecodeSecond(next, encoded, behavior, a, b, c, fourth);
    next := DecodeThird(next, encoded, behavior, b, c, s);
  }

  lemma GroupThen(encoded: Alphabet, a: Byte, b: Byte, c: Byte, s: string)
    ensures Group(encoded, a, b, c) + s ==
            [Symbol(encoded, First(a)), Symbol(encoded, Second(a, b))] +
            ([Symbol(encoded, Third(b, c))] + ([Symbol(encoded, Fourth(c))] + s))
  {
  }

  lemma FirstThree(bytes: seq<Byte>)
    requires |bytes| >= 3
    ensures Prepend(bytes[0], Prepend(bytes[1], Prepend(bytes[2], Some(bytes[3..])))) == Some(bytes)
  {
    assert [bytes[0]] + ([bytes[1]] + ([bytes[2]] + bytes[3..])) == bytes;
  }

  /** Decoding undoes encoding, for the alphabet that was used or a detected one. */
  lemma {:induction false} DecodeFromEncode(alphabet: Alphabet, encoded: Alphabet, behavior: Behavior,
                                            last: Byte, bytes: seq<Byte>)
    requires Reads(alphabet, encoded)
    ensures DecodeFrom(alphabet, behavior, last, 0, Encode(encoded, bytes)) == Some(bytes)
    decreases |bytes|
  {
    if |bytes| >= 3 {
      var next := DecodeGroup(alphabet, encoded, behavior, last, bytes[0], bytes[1], bytes[2], Encode(encoded, bytes[3..]));
      DecodeFromEncode(next, encoded, behavior, Fourth(bytes[2]), bytes[3..]);
      FirstThree(bytes);
    } else if |bytes| > 0 {
      DecodeLastGroup(alphabet, encoded, behavior, last, bytes);
    }
  }

  lemma DecodeLastGroup(alphabet: Alphabet, encoded: Alphabet, behavior: Behavior, last: Byte, bytes: seq<Byte>)
    requires Reads(alphabet, encoded) && 1 <= |bytes| <= 2
    ensures DecodeFrom(alphabet, behavior, last, 0, Encode(encoded, bytes)) == Some(bytes)
  {
    if |bytes| == 1 {
      DecodeLastByte(alphabet, encoded, behavior, last, bytes[0]);
      assert bytes == [bytes[0]];
    } else {
      DecodeLastTwo(alphabet, encoded, behavior, last, bytes[0], bytes[1]);
      assert bytes == [bytes[0], bytes[1]];
    }
  }

  lemma DecodeLastByte(alphabet: Alphabet, encoded: Alphabet, behavior: Behavior, last: Byte, a: Byte)
    requires Reads(alphabet, encoded)
    ensures DecodeFrom(alphabet, behavior, last, 0, Encode(encoded, [a])) == Some([a])
  {
    var next := DecodeFirst(alphabet, encoded, behavior, last, a, 0, [PAD, PAD]);
    DecodePads(next, behavior, Second(a, 0), 4, [PAD, PAD]);
    assert [a] + [] == [a];
  }

  lemma DecodeLastTwo(alphabet: Alphabet, encoded: Alphabet, behavior: Behavior, last: Byte, a: Byte, b: Byte)
    requires Reads(alphabet, encoded)
    ensures DecodeFrom(alphabet, behavior, last, 0, Encode(encoded, [a, b])) == Some([a, b])
  {
    var third := [Symbol(encoded, Third(b, 0))] + [PAD];
    var next := DecodeFirst(alphabet, encoded, behavior, last, a, b, third);
    var after := DecodeSecond(next, encoded, behavior, a, b, 0, [PAD]);
    DecodePads(after, behavior, Third(b, 0), 2, [PAD]);
    assert [a] + ([b] + []) == [a, b];
    assert Encode(encoded, [a, b]) == [Symbol(encoded, First(a)), Symbol(encoded, Second(a, b))] + third;
  }

  lemma DecodeOfEncode(alphabet: Alphabet, encoded: Alphabet, behavior: Behavior, bytes: seq<Byte>)
    requires Reads(alphabet, encoded)
    ensures Decode(alphabet, behavior, Encode(encoded, bytes)) == Some(bytes)
  {
    DecodeFromEncode(alphabet, encoded, behavior, 0, bytes);
  }

  // ----- sizes -----

  function RequiredEncodeSize(size: nat): nat {
    (size / 3 + (if size % 3 != 0 then 1 else 0)) * 4
  }

  function MaxDecodeSize(size: nat): nat {
    (size / 4 + (if size % 4 != 0 then 1 else 0)) * 3
  }

  lemma {:induction false} EncodedSize(alphabet: Alphabet, bytes: seq<Byte>)
    ensures |Encode(alphabet, bytes)| == RequiredEncodeSize(|bytes|)
  {
    if |bytes| >= 3 {
      EncodedSize(alphabet, bytes[3..]);
    }
  }

  /** The number of characters before the first padding character. */
  function SymbolCount(s: string): nat {
    if s == "" || s[0] == PAD then 0 else 1 + SymbolCount(s[1..])
  }

  lemma {:induction false} DecodedBits(alphabet: Alphabet, behavior: Behavior, last: Byte, bits: nat, s: string)
    requires IsBits(bits)
    ensures var r := DecodeFrom(alphabet, behavior, last, bits, s);
            r.Some? ==> |r.value| == (bits + 6 * SymbolCount(s)) / 8
    ensures SymbolCount(s) <= |s|
    decreases |s|
  {
    if s != "" && s[0] != PAD && Value(alphabet, s[0]).Some? {
      var (part, next) := Value(alphabet, s[0]).value;
      DecodedBits(next, behavior, part, Left(bits), s[1..]);
    } else if s != "" {
      CountIsShort(s);
    }
  }

  lemma {:induction false} CountIsShort(s: string)
    ensures SymbolCount(s) <= |s|
  {
    if s != "" {
      CountIsShort(s[1..]);
    }
  }

  /** Six bits for each symbol, and never more than `max_decode_size` bytes. */
  lemma DecodedSize(alphabet: Alphabet, behavior: Behavior, s: string)
    ensures var r := Decode(alphabet, behavior, s);
            r.Some? ==> |r.value| == 6 * SymbolCount(s) / 8 <= MaxDecodeSize(|s|)
  {
    DecodedBits(alphabet, behavior, 0, 0, s);
  }

  // ----- alphabet detection -----

  predicate Either(auto: Option<seq<Byte>>, standard: Option<seq<Byte>>, url: Option<seq<Byte>>) {
    auto == (if standard.Some? then standard else url) && (standard.Some? && url.Some? ==> standard == url)
  }

  predicate IsOwnSymbol(c: char) {
    c == '+' || c == '/' || c == '-' || c == '_'
  }

  lemma CommonValue(c: char)
    requires !IsOwnSymbol(c)
    ensures Value(Auto, c).None? ==> Value(Standard, c).None? && Value(UrlFilenameSafe, c).None?
    ensures Value(Auto, c).Some? ==>
              var part := Value(Auto, c).value.0;
              Value(Auto, c) == Some((part, Auto)) && Value(Standard, c) == Some((part, Standard)) &&
              Value(UrlFilenameSafe, c) == Some((part, UrlFilenameSafe))
  {
  }

  /** A detected alphabet reads what one of the two alphabets reads, and the same bytes. */
  lemma {:induction false} AutoIsEither(behavior: Behavior, last: Byte, bits: nat, s: string)
    requires IsBits(bits)
    ensures Either(DecodeFrom(Auto, behavior, last, bits, s), DecodeFrom(Standard, behavior, last, bits, s),
                   DecodeFrom(UrlFilenameSafe, behavior, last, bits, s))
    decreases |s|
  {
    if s != "" && s[0] != PAD {
      if IsOwnSymbol(s[0]) {
        OneAlphabet(behavior, last, bits, s);
      } else {
        CommonValue(s[0]);
        if Value(Auto, s[0]).Some? {
          var part := Value(Auto, s[0]).value.0;
          AutoIsEither(behavior, part, Left(bits), s[1..]);
          DecodeCommon(Auto, behavior, last, bits, s, part);
          DecodeCommon(Standard, behavior, last, bits, s, part);
          DecodeCommon(UrlFilenameSafe, behavior, last, bits, s, part);
        }
      }
    }
  }

  lemma DecodeCommon(alphabet: Alphabet, behavior: Behavior, last: Byte, bits: nat, s: string, part: Byte)
    requires IsBits(bits) && s != "" && s[0] != PAD && Value(alphabet, s[0]) == Some((part, alphabet))
    ensures DecodeFrom(alphabet, behavior, last, bits, s) ==
            Put(last, bits, part, DecodeFrom(alphabet, behavior, part, Left(bits), s[1..]))
  {
  }

  lemma OneAlphabet(behavior: Behavior, last: Byte, bits: nat, s: string)
    requires IsBits(bits) && s != "" && IsOwnSymbol(s[0])
    ensures var own := if s[0] == '+' || s[0] == '/' then Standard else UrlFilenameSafe;
            var other := if s[0] == '+' || s[0] == '/' then UrlFilenameSafe else Standard;
            DecodeFrom(other, behavior, last, bits, s) == None &&
            DecodeFrom(Auto, behavior, last, bits, s) == DecodeFrom(own, behavior, last, bits, s)
  {
  }

  predicate AllSymbols(alphabet: Alphabet, s: string) {
    forall i | 0 <= i < |s| :: Value(alphabet, s[i]).Some?
  }

  /** What decoding accepts: symbols of one alphabet, then nothing or, when not loose, padding only. */
  predicate Accepts(alphabet: Alphabet, behavior: Behavior, s: string) {
    SymbolCount(s) <= |s| && AllSymbols(alphabet, s[..SymbolCount(s)]) &&
    (behavior == Loose || AllPads(s[SymbolCount(s)..]))
  }

  lemma ValueKeepsAlphabet(alphabet: Alphabet, c: char)
    requires alphabet != Auto
    ensures Value(alphabet, c).Some? ==> Value(alphabet, c).value.1 == alphabet
  {
  }

  lemma {:induction false} AcceptedIff(alphabet: Alphabet, behavior: Behavior, last: Byte, bits: nat, s: string)
    requires IsBits(bits) && alphabet != Auto
    ensures DecodeFrom(alphabet, behavior, last, bits, s).Some? <==> Accepts(alphabet, behavior, s)
    decreases |s|
  {
    if s != "" {
      if s[0] == PAD {
        AcceptsPad(alphabet, behavior, s);
      } else {
        AcceptsSymbol(alphabet, behavior, s);
        ValueKeepsAlphabet(alphabet, s[0]);
        if Value(alphabet, s[0]).Some? {
          var part := Value(alphabet, s[0]).value.0;
          DecodeCommon(alphabet, behavior, last, bits, s, part);
          AcceptedIff(alphabet, behavior, part, Left(bits), s[1..]);
        }
      }
    }
  }

  lemma AcceptsPad(alphabet: Alphabet, behavior: Behavior, s: string)
    requires s != "" && s[0] == PAD
    ensures Accepts(alphabet, behavior, s) <==> behavior == Loose || AllPads(s[1..])
  {
    assert s[0..] == [PAD] + s[1..];
    PadFirst(s[1..]);
  }

  lemma AcceptsSymbol(alphabet: Alphabet, behavior: Behavior, s: string)
    requires s != "" && s[0] != PAD
    ensures Accepts(alphabet, behavior, s) <==> Value(alphabet, s[0]).Some? && Accepts(alphabet, behavior, s[1..])
  {
    CountIsShort(s);
    var n := SymbolCount(s[1..]);
    assert s[1..][n..] == s[1 + n..];
    assert s[..1 + n] == [s[0]] + s[1..][..n];
    SymbolFirst(alphabet, s[0], s[1..][..n]);
  }

  lemma PadFirst(s: string)
    ensures AllPads([PAD] + s) <==> AllPads(s)
  {
    assert AllPads([PAD] + s) ==> forall i | 0 <= i < |s| :: s[i] == ([PAD] + s)[i + 1];
  }

  lemma SymbolFirst(alphabet: Alphabet, c: char, s: string)
    ensures AllSymbols(alphabet, [c] + s) <==> Value(alphabet, c).Some? && AllSymbols(alphabet, s)
  {
    if AllSymbols(alphabet, [c] + s) {
      assert ([c] + s)[0] == c;
      assert forall i | 0 <= i < |s| :: s[i] == ([c] + s)[i + 1];
    }
  }

  // ----- the loops of the source -----

  lemma EncodeFirst(alphabet: Alphabet, bytes: seq<Byte>, pos: nat)
    requires pos < |bytes|
    ensures var group :=
              if |bytes| == pos + 1 then
                [Symbol(alphabet, First(bytes[pos]))] + [Symbol(alphabet, Second(bytes[pos], 0))] + [PAD, PAD]
              else if |bytes| == pos + 2 then
                [Symbol(alphabet, First(bytes[pos]))] + [Symbol(alphabet, Second(bytes[pos], bytes[pos + 1]))] +
                [Symbol(alphabet, Third(bytes[pos + 1], 0))] + [PAD]
              else
                [Symbol(alphabet, First(bytes[pos]))] + [Symbol(alphabet, Second(bytes[pos], bytes[pos + 1]))] +
                [Symbol(alphabet, Third(bytes[pos + 1], bytes[pos + 2]))] + [Symbol(alphabet, Fourth(bytes[pos + 2]))];
            Encode(alphabet, bytes[pos..]) ==
            group + Encode(alphabet, bytes[if |bytes| <= pos + 3 then |bytes| else pos + 3..])
  {
    var rest := bytes[pos..];
    if |rest| >= 3 {
      assert rest[3..] == bytes[pos + 3..];
    }
  }

  /** One turn of the encoding loop: the symbols of up to three bytes. */
  method EncodeGroup(bytes: seq<Byte>, pos: nat, alphabet: Alphabet) returns (out: string, next: nat)
    requires pos < |bytes|
    ensures pos < next <= |bytes|
    ensures Encode(alphabet, bytes[pos..]) == out + Encode(alphabet, bytes[next..])
  {
    EncodeFirst(alphabet, bytes, pos);
    next := pos + 1;
    var i0 := bytes[pos];
    out := [Symbol(alphabet, First(i0))];
    if next == |bytes| {
      out := out + [Symbol(alphabet, Second(i0, 0))];
      out := out + [PAD, PAD];
      return;
    }
    var i1 := bytes[next];
    next := next + 1;
    out := out + [Symbol(alphabet, Second(i0, i1))];
    if next == |bytes| {
      out := out + [Symbol(alphabet, Third(i1, 0))];
      out := out + [PAD];
      return;
    }
    var i2 := bytes[next];
    next := next + 1;
    out := out + [Symbol(alphabet, Third(i1, i2))];
    out := out + [Symbol(alphabet, Fourth(i2))];
  }

  method EncodeBytes(bytes: seq<Byte>, alphabet: Alphabet) returns (out: string)
    ensures out == Encode(alphabet, bytes)
  {
    out := "";
    var pos := 0;
    assert bytes[0..] == bytes;
    while pos < |bytes|
      invariant pos <= |bytes|
      invariant Encode(alphabet, bytes) == out + Encode(alphabet, bytes[pos..])
    {
      var group, next := EncodeGroup(bytes, pos, alphabet);
      Regroup(out, group, Encode(alphabet, bytes[next..]));
      out := out + group;
      pos := next;
    }
  }

  /** The result when `done` is written already. */
  function Resume(done: seq<Byte>, rest: Option<seq<Byte>>): Option<seq<Byte>> {
    if rest.None? then None else Some(done + rest.value)
  }

  function AfterPad(behavior: Behavior, done: seq<Byte>, s: string): Option<seq<Byte>> {
    if behavior == Loose || AllPads(s) then Some(done) else None
  }

  /** One turn of the decoding loop. */
  lemma DecodeTurn(alphabet: Alphabet, behavior: Behavior, last: Byte, bits: nat, done: seq<Byte>, s: string)
    requires IsBits(bits) && s != ""
    ensures Resume(done, DecodeFrom(alphabet, behavior, last, bits, s)) ==
            if s[0] == PAD then AfterPad(behavior, done, s[1..])
            else match Value(alphabet, s[0])
              case None => None
              case Some((part, next)) =>
                if bits == 0 then Resume(done, DecodeFrom(next, behavior, part, 6, s[1..]))
                else Resume(done + [ByteOf(last, bits, part)], DecodeFrom(next, behavior, part, bits - 2, s[1..]))
  {
    assert done + [] == done;
    if s[0] != PAD && Value(alphabet, s[0]).Some? && bits != 0 {
      var (part, next) := Value(alphabet, s[0]).value;
      var rest := DecodeFrom(next, behavior, part, bits - 2, s[1..]);
      if rest.Some? {
        assert done + ([ByteOf(last, bits, part)] + rest.value) == done + [ByteOf(last, bits, part)] + rest.value;
      }
    }
  }

  lemma DecodeEnds(alphabet: Alphabet, behavior: Behavior, last: Byte, bits: nat, done: seq<Byte>)
    requires IsBits(bits)
    ensures Resume(done, DecodeFrom(alphabet, behavior, last, bits, "")) == AfterPad(behavior, done, "")
  {
    assert done + [] == done;
  }

  lemma StartDecoding(alphabet: Alphabet, behavior: Behavior, s: string)
    ensures Decode(alphabet, behavior, s) == Resume([], DecodeFrom(alphabet, behavior, 0, 0, s[0..]))
  {
    assert s[0..] == s;
    var r := Decode(alphabet, behavior, s);
    assert r.Some? ==> [] + r.value == r.value;
  }

  method CheckPadding(s: string, pos: nat, behavior: Behavior) returns (ok: bool)
    requires pos <= |s|
    ensures ok <==> behavior == Loose || AllPads(s[pos..])
  {
    if behavior != Loose {
      var read := pos;
      while read < |s|
        invariant pos <= read <= |s|
        invariant forall i | pos <= i < read :: s[i] == PAD
      {
        if s[read] != PAD {
          assert s[pos..][read - pos] == s[read];
          return false;
        }
        read := read + 1;
      }
    }
    ok := true;
  }

  method DecodeString(s: string, detected: Alphabet, behavior: Behavior) returns (r: Option<seq<Byte>>)
    ensures r == Decode(detected, behavior, s)
  {
    var alphabet := detected;
    var last: Byte := 0;
    var bits: nat := 0;
    var read := 0;
    var out: seq<Byte> := [];
    ghost var whole := Decode(detected, behavior, s);
    StartDecoding(detected, behavior, s);
    while read < |s|
      invariant read <= |s| && IsBits(bits)
      invariant whole == Resume(out, DecodeFrom(alphabet, behavior, last, bits, s[read..]))
    {
      DecodeTurn(alphabet, behavior, last, bits, out, s[read..]);
      assert s[read..][1..] == s[read + 1..];
      var c := s[read];
      read := read + 1;
      if c == PAD {
        break;
      }
      var value := Value(alphabet, c);
      if value.None? {
        return None;
      }
      var part := value.value.0;
      alphabet := value.value.1;
      if bits + 6 >= 8 {
        out := out + [ByteOf(last, bits, part)];
        bits := bits - 2;
      } else {
        bits := bits + 6;
      }
      last := part;
    }
    DecodeEnds(alphabet, behavior, last, bits, out);
    assert whole == AfterPad(behavior, out, s[read..]);
    var ok := CheckPadding(s, read, behavior);
    r := if ok then Some(out) else None;
  }

  // ----- decoding over the text itself -----

  function CharOf(b: Byte): char {
    b as int as char
  }

  function CharsOf(bytes: seq<Byte>): (s: string)
    ensures |s| == |bytes|
  {
    seq(|bytes|, i requires 0 <= i < |bytes| => CharOf(bytes[i]))
  }

  lemma CharsOfLonger(bytes: seq<Byte>, b: Byte)
    ensures CharsOf(bytes + [b]) == CharsOf(bytes) + [CharOf(b)]
  {
  }

  /** `done` is written at the beginning of the buffer, and nothing from `read` on has changed. */
  predicate Overwritten(was: string, now: string, done: seq<Byte>, read: nat) {
    |was| == |now| && |done| <= read <= |now| && now[..|done|] == CharsOf(done) && now[read..] == was[read..]
  }

  lemma Reading(was: string, now: string, done: seq<Byte>, read: nat, size: nat)
    requires Overwritten(was, now, done, read) && read < size <= |was|
    ensures now[read] == was[..size][read] && was[..size][read..][0] == now[read]
    ensures was[..size][read..][1..] == was[..size][read + 1..]
    ensures Overwritten(was, now, done, read + 1)
  {
    assert now[read] == now[read..][0];
    assert now[read + 1..] == now[read..][1..];
    assert was[read + 1..] == was[read..][1..];
  }

  /** Writing the next byte does not reach what is still to be read. */
  lemma Writing(was: string, now: string, done: seq<Byte>, read: nat, b: Byte)
    requires Overwritten(was, now, done, read) && |done| < read
    ensures Overwritten(was, now[|done| := CharOf(b)], done + [b], read)
  {
    var next := now[|done| := CharOf(b)];
    CharsOfLonger(done, b);
    assert next[..|done| + 1] == now[..|done|] + [CharOf(b)];
    assert next[read..] == now[read..];
  }

  /** In the middle of decoding in place: the text read from now on gives the rest of `whole`. */
  predicate Decoding(whole: Option<seq<Byte>>, was: string, now: string, size: nat, alphabet: Alphabet,
                     behavior: Behavior, last: Byte, bits: nat, done: seq<Byte>, read: nat) {
    IsBits(bits) && read <= size <= |was| && Overwritten(was, now, done, read) &&
    whole == Resume(done, DecodeFrom(alphabet, behavior, last, bits, was[..size][read..]))
  }

  /** Decoding is finished, but for a check of what follows the padding. */
  predicate Decoded(whole: Option<seq<Byte>>, was: string, now: string, size: nat,
                    behavior: Behavior, done: seq<Byte>, read: nat) {
    read <= size <= |was| && Overwritten(was, now, done, read) &&
    whole == AfterPad(behavior, done, was[..size][read..])
  }

  lemma Slices(buffer: array<char>, size: nat)
    requires size <= buffer.Length
    ensures buffer[..size] == buffer[..][..size] && buffer[size..] == buffer[..][size..]
  {
  }

  lemma StartInPlace(was: string, size: nat, detected: Alphabet, behavior: Behavior)
    requires size <= |was|
    ensures Decoding(Decode(detected, behavior, was[..size]), was, was, size, detected, behavior, 0, 0, [], 0)
  {
    StartDecoding(detected, behavior, was[..size]);
  }

  lemma PadInPlace(whole: Option<seq<Byte>>, was: string, now: string, size: nat, alphabet: Alphabet,
                   behavior: Behavior, last: Byte, bits: nat, done: seq<Byte>, read: nat)
    requires Decoding(whole, was, now, size, alphabet, behavior, last, bits, done, read) && read < size
    requires now[read] == PAD
    ensures Decoded(whole, was, now, size, behavior, done, read + 1)
  {
    DecodeTurn(alphabet, behavior, last, bits, done, was[..size][read..]);
    Reading(was, now, done, read, size);
  }

  lemma BadInPlace(whole: Option<seq<Byte>>, was: string, now: string, size: nat, alphabet: Alphabet,
                   behavior: Behavior, last: Byte, bits: nat, done: seq<Byte>, read: nat)
    requires Decoding(whole, was, now, size, alphabet, behavior, last, bits, done, read) && read < size
    requires now[read] != PAD && Value(alphabet, now[read]).None?
    ensures whole == None && now[size..] == was[size..]
  {
    DecodeTurn(alphabet, behavior, last, bits, done, was[..size][read..]);
    Reading(was, now, done, read, size);
    Untouched(was, now, done, read, size);
  }

  /** What a part writes: a byte, unless no bits were left. */
  function Added(last: Byte, bits: nat, part: Byte): seq<Byte>
    requires IsBits(bits)
  {
    if bits == 0 then [] else [ByteOf(last, bits, part)]
  }

  lemma PartInPlace(whole: Option<seq<Byte>>, was: string, now: string, size: nat, alphabet: Alphabet,
                    behavior: Behavior, last: Byte, bits: nat, done: seq<Byte>, read: nat)
    requires Decoding(whole, was, now, size, alphabet, behavior, last, bits, done, read) && read < size
    requires now[read] != PAD && Value(alphabet, now[read]).Some?
    ensures var (part, next) := Value(alphabet, now[read]).value;
            var now' := if bits == 0 then now else now[|done| := CharOf(ByteOf(last, bits, part))];
            |done| < |now| &&
            Decoding(whole, was, now', size, next, behavior, part, Left(bits), done + Added(last, bits, part), read + 1)
  {
    DecodeTurn(alphabet, behavior, last, bits, done, was[..size][read..]);
    Reading(was, now, done, read, size);
    if bits == 0 {
      assert done + [] == done;
    } else {
      Writing(was, now, done, read + 1, ByteOf(last, bits, Value(alphabet, now[read]).value.0));
    }
  }

  lemma EndInPlace(whole: Option<seq<Byte>>, was: string, now: string, size: nat, alphabet: Alphabet,
                   behavior: Behavior, last: Byte, bits: nat, done: seq<Byte>)
    requires Decoding(whole, was, now, size, alphabet, behavior, last, bits, done, size)
    ensures Decoded(whole, was, now, size, behavior, done, size)
  {
    assert was[..size][size..] == "";
    DecodeEnds(alphabet, behavior, last, bits, done);
  }

  /** Six more bits: with those left they give a byte, unless none were left. */
  method WritePart(buffer: array<char>, write: nat, last: Byte, bits: nat, part: Byte) returns (next: nat, left: nat)
    requires IsBits(bits) && write < buffer.Length
    modifies buffer
    ensures left == Left(bits) && next == (if bits == 0 then write else write + 1)
    ensures buffer[..] == if bits == 0 then old(buffer[..]) else old(buffer[..])[write := CharOf(ByteOf(last, bits, part))]
  {
    next := write;
    if bits + 6 >= 8 {
      buffer[write] := CharOf(ByteOf(last, bits, part));
      next := next + 1;
      left := bits - 2;
    } else {
      left := bits + 6;
    }
  }

  method TurnInPlace(ghost whole: Option<seq<Byte>>, ghost was: string, buffer: array<char>, size: nat, alphabet: Alphabet,
                     ghost behavior: Behavior, last: Byte, bits: nat, ghost done: seq<Byte>, read: nat, write: nat)
    returns (next: nat, left: nat, ghost more: seq<Byte>)
    requires Decoding(whole, was, buffer[..], size, alphabet, behavior, last, bits, done, read) && read < size
    requires write == |done| && buffer[read] != PAD && Value(alphabet, buffer[read]).Some?
    modifies buffer
    ensures var (part, alphabet') := Value(alphabet, old(buffer[read])).value;
            Decoding(whole, was, buffer[..], size, alphabet', behavior, part, left, more, read + 1)
    ensures next == |more|
  {
    PartInPlace(whole, was, buffer[..], size, alphabet, behavior, last, bits, done, read);
    var part := Value(alphabet, buffer[read]).value.0;
    more := done + Added(last, bits, part);
    next, left := WritePart(buffer, write, last, bits, part);
  }

  method DecodeInPlace(buffer: array<char>, size: nat, detected: Alphabet, behavior: Behavior) returns (end: Option<nat>)
    requires size <= buffer.Length
    modifies buffer
    ensures buffer[size..] == old(buffer[size..])
    ensures match Decode(detected, behavior, old(buffer[..size]))
            case None => end == None
            case Some(bytes) => end == Some(|bytes|) && |bytes| <= size && buffer[..|bytes|] == CharsOf(bytes)
  {
    var alphabet := detected;
    var last: Byte := 0;
    var bits: nat := 0;
    var read, write := 0, 0;
    ghost var was := buffer[..];
    ghost var out: seq<Byte> := [];
    ghost var padded := false;
    ghost var whole := Decode(detected, behavior, was[..size]);
    Slices(buffer, size);
    StartInPlace(was, size, detected, behavior);
    while read < size
      invariant write == |out| && !padded
      invariant Decoding(whole, was, buffer[..], size, alphabet, behavior, last, bits, out, read)
    {
      var c := buffer[read];
      if c == PAD {
        PadInPlace(whole, was, buffer[..], size, alphabet, behavior, last, bits, out, read);
        read := read + 1;
        padded := true;
        break;
      }
      var value := Value(alphabet, c);
      if value.None? {
        BadInPlace(whole, was, buffer[..], size, alphabet, behavior, last, bits, out, read);
        Slices(buffer, size);
        return None;
      }
      write, bits, out := TurnInPlace(whole, was, buffer, size, alphabet, behavior, last, bits, out, read, write);
      last, alphabet := value.value.0, value.value.1;
      read := read + 1;
    }
    if !padded {
      EndInPlace(whole, was, buffer[..], size, alphabet, behavior, last, bits, out);
    }
    end := FinishInPlace(whole, was, buffer, size, behavior, out, read, write);
  }

  /** What follows the padding is checked, and the buffer is cut after the last byte written. */
  method FinishInPlace(ghost whole: Option<seq<Byte>>, ghost was: string, buffer: array<char>, size: nat,
                       behavior: Behavior, ghost done: seq<Byte>, read: nat, write: nat) returns (end: Option<nat>)
    requires write == |done| && size <= buffer.Length
    requires Decoded(whole, was, buffer[..], size, behavior, done, read)
    ensures buffer[size..] == was[size..]
    ensures match whole
            case None => end == None
            case Some(bytes) => end == Some(|bytes|) && |bytes| <= size && buffer[..|bytes|] == CharsOf(bytes)
  {
    Untouched(was, buffer[..], done, read, size);
    assert buffer[..size] == buffer[..][..size];
    assert buffer[size..] == buffer[..][size..];
    var ok := CheckPadding(buffer[..size], read, behavior);
    end := if ok then Some(write) else None;
  }

  lemma Untouched(was: string, now: string, done: seq<Byte>, read: nat, size: nat)
    requires Overwritten(was, now, done, read) && read <= size <= |was|
    ensures now[size..] == was[size..] && now[..size][read..] == was[..size][read..]
  {
    assert now[size..] == now[read..][size - read..];
    assert was[size..] == was[read..][size - read..];
    assert now[..size][read..] == now[read..][..size - read];
    assert was[..size][read..] == was[read..][..size - read];
  }
}