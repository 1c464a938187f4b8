/**
 The Huffman code behind the padding lengths: the code words of Appendix B of
 RFC 7541 for the base62 characters, the encoder with the padding of its
 section 5.2, and a decoder that reads the words back.
 */
module HuffmanCode {
  import opened HuffmanPadding

  /** A code word: its value, most significant bit first, and its width in bits. */
  datatype Word = Word(code: nat, width: nat)

  function WordOf(c: char): Word
    requires IsBase62(c)
  {
    if '0' <= c <= '2' then Word(c as int - '0' as int, 5)
    else if c == 'a' then Word(0x3, 5)
    else if c == 'c' then Word(0x4, 5)
    else if c == 'e' then Word(0x5, 5)
    else if c == 'i' then Word(0x6, 5)
    else if c == 'o' then Word(0x7, 5)
    else if c == 's' then Word(0x8, 5)
    else if c == 't' then Word(0x9, 5)
    else if '3' <= c <= '9' then Word(0x19 + c as int - '3' as int, 6)
    else if c == 'A' then Word(0x21, 6)
    else if c == 'b' then Word(0x23, 6)
    else if c == 'd' then Word(0x24, 6)
    else if 'f' <= c <= 'h' then Word(0x25 + c as int - 'f' as int, 6)
    else if 'l' <= c <= 'n' then Word(0x28 + c as int - 'l' as int, 6)
    else if c == 'p' then Word(0x2b, 6)
    else if c == 'r' then Word(0x2c, 6)
    else if c == 'u' then Word(0x2d, 6)
    else if 'B' <= c <= 'W' then Word(0x5d + c as int - 'B' as int, 7)
    else if c == 'Y' then Word(0x73, 7)
    else if c == 'j' then Word(0x74, 7)
    else if c == 'k' then Word(0x75, 7)
    else if c == 'q' then Word(0x76, 7)
    else if 'v' <= c <= 'z' then Word(0x77 + c as int - 'v' as int, 7)
    else if c == 'X' then Word(0xfc, 8)
    else Word(0xfd, 8)
  }

  /** The character of a code word; words of other symbols read as '?'. */
  function SymbolOf(w: Word): char {
    if w.width == 5 then
      if w.code < 3 then '0' + w.code as char
      else if w.code < 10 then "aceiost"[w.code - 3]
      else '?'
    else if w.width == 6 then
      if 0x19 <= w.code < 0x20 then '3' + (w.code - 0x19) as char
      else if w.code == 0x21 then 'A'
      else if 0x23 <= w.code < 0x2e then "bdfghlmnpru"[w.code - 0x23]
      else '?'
    else if w.width == 7 then
      if 0x5d <= w.code < 0x73 then 'B' + (w.code - 0x5d) as char
      else if 0x73 <= w.code < 0x7c then "Yjkqvwxyz"[w.code - 0x73]
      else '?'
    else if w == Word(0xfc, 8) then 'X'
    else if w == Word(0xfd, 8) then 'Z'
    else '?'
  }

  /** One past the last word of each width; the words of the next width continue from twice that. */
  function Past(width: nat): nat {
    match width
    case 5 => 0xa
    case 6 => 0x2e
    case 7 => 0x7c
    case 8 => 0xfe
    case _ => 0
  }

  /** The lengths the padding counts with are those of the words; the words of a width are consecutive. */
  lemma WidthsAreBits(c: char)
    requires IsBase62(c)
    ensures WordOf(c).width == Bits(c)
    ensures 2 * Past(Bits(c) - 1) <= WordOf(c).code < Past(Bits(c))
  {
  }

  lemma SymbolOfShortWord(c: char)
    requires IsBase62(c) && WordOf(c).width <= 6
    ensures SymbolOf(WordOf(c)) == c
  {
  }

  lemma SymbolOfLongWord(c: char)
    requires IsBase62(c) && WordOf(c).width > 6
    ensures SymbolOf(WordOf(c)) == c
  {
  }

  lemma SymbolOfWord(c: char)
    requires IsBase62(c)
    ensures SymbolOf(WordOf(c)) == c
  {
    if WordOf(c).width <= 6 { SymbolOfShortWord(c); } else { SymbolOfLongWord(c); }
  }

  // ---- bits ----

  function BitsOf(code: nat, width: nat): (bits: seq<bool>)
    ensures |bits| == width
  {
    if width == 0 then [] else BitsOf(code / 2, width - 1) + [code % 2 == 1]
  }

  function Value(bits: seq<bool>): nat {
    if bits == [] then 0 else 2 * Value(bits[..|bits| - 1]) + if bits[|bits| - 1] then 1 else 0
  }

  function Pow2(n: nat): (p: nat)
    ensures p > 0
  {
    if n == 0 then 1 else 2 * Pow2(n - 1)
  }

  lemma {:induction false} ValueOfBits(code: nat, width: nat)
    requires code < Pow2(width)
    ensures Value(BitsOf(code, width)) == code
    decreases width
  {
    if width > 0 {
      ValueOfBits(code / 2, width - 1);
      assert BitsOf(code, width)[..width - 1] == BitsOf(code / 2, width - 1);
    }
  }

  /** Without its last `n` bits. */
  function Shift(code: nat, n: nat): nat
    decreases n
  {
    if n == 0 then code else Shift(code / 2, n - 1)
  }

  lemma Shifts(code: nat)
    ensures Shift(code, 1) == code / 2 && Shift(code, 2) == code / 4 && Shift(code, 3) == code / 8
  {
    assert Shift(code, 1) == Shift(code / 2, 0);
    assert Shift(code, 2) == Shift(code / 2, 1) == Shift(code / 2 / 2, 0);
    assert Shift(code, 3) == Shift(code / 2, 2) == Shift(code / 2 / 2, 1) == Shift(code / 2 / 2 / 2, 0);
  }

  /** The leading bits of a word are those of the shifted word. */
  lemma {:induction false} LeadingBits(code: nat, width: nat, less: nat)
    requires less <= width
    ensures BitsOf(code, width)[..width - less] == BitsOf(Shift(code, less), width - less)
    decreases less
  {
    if less == 0 {
      assert BitsOf(code, width)[..width] == BitsOf(code, width);
    } else {
      LeadingBits(code / 2, width - 1, less - 1);
      var bits := BitsOf(code, width);
      assert bits[..width - 1] == BitsOf(code / 2, width - 1);
      assert bits[..width - less] == bits[..width - 1][..width - less];
    }
  }

  // ---- encoding and decoding ----

  function EncodeBits(s: string): seq<bool>
    requires forall c :: c in s ==> IsBase62(c)
  {
    if s == [] then [] else BitsOf(WordOf(s[0]).code, WordOf(s[0]).width) + EncodeBits(s[1..])
  }

  function Ones(n: nat): (bits: seq<bool>)
    ensures |bits| == n && forall i :: 0 <= i < n ==> bits[i]
  {
    seq(n, _ => true)
  }

  /** The bits missing to the next whole octet. */
  function Fill(n: nat): (f: nat)
    ensures f < 8 && (n + f) % 8 == 0
  {
    (8 - n % 8) % 8
  }

  /** The words in order, filled up to whole octets with ones. */
  function Encode(s: string): seq<bool>
    requires forall c :: c in s ==> IsBase62(c)
  {
    EncodeBits(s) + Ones(Fill(|EncodeBits(s)|))
  }

  /** The width of the word at the head of the bits, or 0 if there is none. */
  function HeadWidth(bits: seq<bool>): (w: nat)
    ensures w <= |bits|
  {
    if |bits| >= 5 && Value(bits[..5]) < Past(5) then 5
    else if |bits| >= 6 && Value(bits[..6]) < Past(6) then 6
    else if |bits| >= 7 && Value(bits[..7]) < Past(7) then 7
    else if |bits| >= 8 && Value(bits[..8]) < Past(8) then 8
    else 0
  }

  function Decode(bits: seq<bool>): string {
    var w := HeadWidth(bits);
    if w == 0 then "" else [SymbolOf(Word(Value(bits[..w]), w))] + Decode(bits[w..])
  }

  /** The value of the first `width - less` bits of a word, whatever follows it. */
  lemma ValueOfHead(code: nat, width: nat, less: nat, rest: seq<bool>)
    requires less <= width && Shift(code, less) < Pow2(width - less)
    ensures Value((BitsOf(code, width) + rest)[..width - less]) == Shift(code, less)
  {
    var bits := BitsOf(code, width);
    assert (bits + rest)[..width - less] == bits[..width - less];
    LeadingBits(code, width, less);
    ValueOfBits(Shift(code, less), width - less);
  }

  lemma Powers()
    ensures Pow2(5) == 32 && Pow2(6) == 64 && Pow2(7) == 128 && Pow2(8) == 256
  {
    assert Pow2(3) == 8;
    assert Pow2(4) == 16;
    assert Pow2(5) == 32;
    assert Pow2(6) == 64;
    assert Pow2(7) == 128;
  }

  /** No word starts with another: the head of an encoded string is read with its own width. */
  lemma HeadWidthOfWord(c: char, rest: seq<bool>)
    requires IsBase62(c)
    ensures var w := WordOf(c); HeadWidth(BitsOf(w.code, w.width) + rest) == w.width
    ensures var w := WordOf(c); Value((BitsOf(w.code, w.width) + rest)[..w.width]) == w.code
  {
    var w := WordOf(c);
    WidthsAreBits(c);
    Powers();
    Shifts(w.code);
    ValueOfHead(w.code, w.width, 0, rest);
    if w.width >= 6 { ValueOfHead(w.code, w.width, 1, rest); }
    if w.width >= 7 { ValueOfHead(w.code, w.width, 2, rest); }
    if w.width == 8 { ValueOfHead(w.code, w.width, 3, rest); }
  }

  lemma ValueOfOnes(n: nat)
    requires n <= 7
    ensures Value(Ones(n)) == Pow2(n) - 1
  {
    if n > 0 {
      ValueOfOnes(n - 1);
      assert Ones(n)[..n - 1] == Ones(n - 1);
    }
  }

  /** The filling is never taken for a word. */
  lemma OnesAreNoWord(n: nat)
    requires n < 8
    ensures HeadWidth(Ones(n)) == 0
  {
    Powers();
    ValueOfOnes(5);
    ValueOfOnes(6);
    ValueOfOnes(7);
    assert n >= 5 ==> Ones(n)[..5] == Ones(5);
    assert n >= 6 ==> Ones(n)[..6] == Ones(6);
    assert n >= 7 ==> Ones(n)[..7] == Ones(7);
  }

  lemma {:induction false} DecodeUpToOnes(s: string, n: nat)
    requires (forall c :: c in s ==> IsBase62(c)) && n < 8
    ensures Decode(EncodeBits(s) + Ones(n)) == s
  {
    if s == [] {
      OnesAreNoWord(n);
      assert EncodeBits(s) + Ones(n) == Ones(n);
    } else {
      var word, rest := BitsOf(WordOf(s[0]).code, WordOf(s[0]).width), EncodeBits(s[1..]) + Ones(n);
      assert EncodeBits(s) + Ones(n) == word + rest;
      HeadWidthOfWord(s[0], rest);
      SymbolOfWord(s[0]);
      assert (word + rest)[|word|..] == rest;
      DecodeUpToOnes(s[1..], n);
    }
  }

  /** Decoding undoes encoding, for every base62 string. */
  lemma DecodeEncode(s: string)
    requires forall c :: c in s ==> IsBase62(c)
    ensures Decode(Encode(s)) == s
  {
    DecodeUpToOnes(s, Fill(|EncodeBits(s)|));
  }

  lemma {:induction false} BitLengthCons(c: char, s: string)
    ensures BitLength([c] + s) == Bits(c) + BitLength(s)
  {
    if s == [] {
      assert ([c] + s)[..0] == [];
    } else {
      var front := s[..|s| - 1];
      BitLengthCons(c, front);
      assert ([c] + s)[..|s|] == [c] + front;
    }
  }

  lemma {:induction false} EncodedBits(s: string)
    requires forall c :: c in s ==> IsBase62(c)
    ensures |EncodeBits(s)| == BitLength(s)
  {
    if s != [] {
      EncodedBits(s[1..]);
      WidthsAreBits(s[0]);
      BitLengthCons(s[0], s[1..]);
      assert [s[0]] + s[1..] == s;
    }
  }

  /** The length the padding is adjusted by is the number of octets the string is encoded in. */
  lemma EncodedOctets(s: string)
    requires forall c :: c in s ==> IsBase62(c)
    ensures |Encode(s)| == 8 * HuffmanLength(s)
  {
    EncodedBits(s);
    FilledUp(BitLength(s));
  }

  lemma FilledUp(n: nat)
    ensures n + Fill(n) == 8 * ((n + 7) / 8)
  {
  }
}
