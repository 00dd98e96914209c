/** Base64 (src/utils/base64.cpp). The two library routines that it calls are written here from
    section 4 of RFC 4648; like them, decoding stops at the first character outside the alphabet. */
module Base64 {
  import opened Common

  type sextet = v: int | 0 <= v < 64

  const PAD: byte := 61

  function EncodedSize(n: nat): nat { 4 * ((n + 2) / 3) }

  function DecodedSize(n: nat): nat { n / 4 * 3 }

  /** Table 1 of RFC 4648. */
  function Letter(v: sextet): byte {
    if v < 26 then 65 + v else if v < 52 then 71 + v else if v < 62 then v - 4 else if v == 62 then 43 else 47
  }

  function Value(c: byte): Option<sextet> {
    if 65 <= c <= 90 then Some(c - 65)
    else if 97 <= c <= 122 then Some(c - 71)
    else if 48 <= c <= 57 then Some(c + 4)
    else if c == 43 then Some(62)
    else if c == 47 then Some(63)
    else None
  }

  // Three octets a, b, c and the four sextets of their 24 bits.

  function Sextet0(a: byte): sextet { a / 4 }

  function Sextet1(a: byte, b: byte): sextet { a % 4 * 16 + b / 16 }

  function Sextet2(b: byte, c: byte): sextet { b % 16 * 4 + c / 64 }

  function Sextet3(c: byte): sextet { c % 64 }

  function Octet0(p: sextet, q: sextet): byte { p as int * 4 + q / 16 }

  function Octet1(q: sextet, r: sextet): byte { q as int % 16 * 16 + r / 4 }

  function Octet2(r: sextet, t: sextet): byte { r as int % 4 * 64 + t }

  /** The sextets of a byte string, the last one filled up with zero bits. */
  function Sextets(x: seq<byte>): seq<sextet> {
    if |x| == 0 then []
    else if |x| == 1 then [Sextet0(x[0]), Sextet1(x[0], 0)]
    else if |x| == 2 then [Sextet0(x[0]), Sextet1(x[0], x[1]), Sextet2(x[1], 0)]
    else [Sextet0(x[0]), Sextet1(x[0], x[1]), Sextet2(x[1], x[2]), Sextet3(x[2])] + Sextets(x[3..])
  }

  function Octets(d: seq<sextet>): seq<byte> {
    if |d| <= 1 then []
    else if |d| == 2 then [Octet0(d[0], d[1])]
    else if |d| == 3 then [Octet0(d[0], d[1]), Octet1(d[1], d[2])]
    else [Octet0(d[0], d[1]), Octet1(d[1], d[2]), Octet2(d[2], d[3])] + Octets(d[4..])
  }

  function Padding(n: nat): seq<byte> { seq(n, _ => PAD) }

  function PadCount(n: nat): nat { (3 - n % 3) % 3 }

  /** The letters that encode a byte string, without padding. */
  function Letters(x: seq<byte>): seq<byte> { Map(Letter, Sextets(x)) }

  function Encoded(x: seq<byte>): seq<byte> {
    Letters(x) + Padding(PadCount(|x|))
  }

  /** The values of the leading characters that belong to the alphabet. */
  function Digits(s: seq<byte>): seq<sextet> {
    if s == [] || Value(s[0]).None? then [] else [Value(s[0]).value] + Digits(s[1..])
  }

  function Decoded(s: seq<byte>): seq<byte> {
    Octets(Digits(s))
  }

  lemma LetterRoundTrip(v: sextet)
    ensures Value(Letter(v)) == Some(v)
  {
  }

  lemma Recover16(q: int, r: int)
    requires 0 <= r < 16
    ensures (q * 16 + r) / 16 == q && (q * 16 + r) % 16 == r
  {
  }

  lemma Recover4(q: int, r: int)
    requires 0 <= r < 4
    ensures (q * 4 + r) / 4 == q && (q * 4 + r) % 4 == r
  {
  }

  // The octets come back from the four sextets of three octets.

  lemma FirstOctet(a: byte, b: byte)
    ensures Octet0(Sextet0(a), Sextet1(a, b)) == a
  {
    Recover16(a % 4, b / 16);
  }

  lemma SecondOctet(a: byte, b: byte, c: byte)
    ensures Octet1(Sextet1(a, b), Sextet2(b, c)) == b
  {
    Recover16(a % 4, b / 16);
    Recover4(b % 16, c / 64);
  }

  lemma ThirdOctet(b: byte, c: byte)
    ensures Octet2(Sextet2(b, c), Sextet3(c)) == c
  {
    Recover4(b % 16, c / 64);
  }

  lemma OctetsGroup(p: sextet, q: sextet, r: sextet, t: sextet, rest: seq<sextet>)
    ensures Octets([p, q, r, t] + rest) == [Octet0(p, q), Octet1(q, r), Octet2(r, t)] + Octets(rest)
  {
    Split([p, q, r, t], rest);
  }

  lemma OneRoundTrip(a: byte)
    ensures Octets(Sextets([a])) == [a]
  {
    FirstOctet(a, 0);
    assert Sextets([a]) == [Sextet0(a), Sextet1(a, 0)];
  }

  lemma TwoRoundTrip(a: byte, b: byte)
    ensures Octets(Sextets([a, b])) == [a, b]
  {
    FirstOctet(a, b);
    SecondOctet(a, b, 0);
    assert Sextets([a, b]) == [Sextet0(a), Sextet1(a, b), Sextet2(b, 0)];
  }

  lemma LongRoundTrip(a: byte, b: byte, c: byte, x: seq<byte>)
    requires Octets(Sextets(x)) == x
    ensures Octets(Sextets([a, b, c] + x)) == [a, b, c] + x
  {
    Split([a, b, c], x);
    FirstOctet(a, b);
    SecondOctet(a, b, c);
    ThirdOctet(b, c);
    OctetsGroup(Sextet0(a), Sextet1(a, b), Sextet2(b, c), Sextet3(c), Sextets(x));
    assert Sextets([a, b, c] + x) == [Sextet0(a), Sextet1(a, b), Sextet2(b, c), Sextet3(c)] + Sextets(x);
  }

  lemma {:induction false} OctetsOfSextets(x: seq<byte>)
    ensures Octets(Sextets(x)) == x
  {
    if |x| == 0 {
    } else if |x| == 1 {
      OneRoundTrip(x[0]);
      assert [x[0]] == x;
    } else if |x| == 2 {
      TwoRoundTrip(x[0], x[1]);
      assert [x[0], x[1]] == x;
    } else {
      OctetsOfSextets(x[3..]);
      LongRoundTrip(x[0], x[1], x[2], x[3..]);
      assert [x[0], x[1], x[2]] + x[3..] == x;
    }
  }

  lemma {:induction false} DigitsOfLetters(d: seq<sextet>, tail: seq<byte>)
    requires tail == [] || Value(tail[0]).None?
    ensures Digits(Map(Letter, d) + tail) == d
  {
    if d == [] {
      assert Map(Letter, d) + tail == tail;
    } else {
      LetterRoundTrip(d[0]);
      assert (Map(Letter, d) + tail)[1..] == Map(Letter, d[1..]) + tail;
      DigitsOfLetters(d[1..], tail);
    }
  }

  /** Decoding undoes encoding, also when more padding follows. */
  lemma RoundTrip(x: seq<byte>, extra: nat)
    ensures Decoded(Encoded(x) + Padding(extra)) == x
  {
    assert Encoded(x) + Padding(extra) == Map(Letter, Sextets(x)) + Padding(PadCount(|x|) + extra);
    DigitsOfLetters(Sextets(x), Padding(PadCount(|x|) + extra));
    OctetsOfSextets(x);
  }

  lemma {:induction false} SextetCount(x: seq<byte>)
    ensures |Sextets(x)| == |x| / 3 * 4 + (if |x| % 3 == 0 then 0 else |x| % 3 + 1)
  {
    if |x| >= 3 {
      SextetCount(x[3..]);
    }
  }

  lemma Sizes(n: nat)
    ensures EncodedSize(n) == n / 3 * 4 + (if n % 3 == 0 then 0 else 4)
    ensures EncodedSize(n) == n / 3 * 4 + (if n % 3 == 0 then 0 else n % 3 + 1) + PadCount(n)
    ensures DecodedSize(EncodedSize(n)) >= n
  {
    var q, r := n / 3, n % 3;
    assert n == 3 * q + r;
    assert (n + 2) / 3 == if r == 0 then q else q + 1;
  }

  /** The output fills its pre-sized buffer exactly, and decoding it (with any extra padding) stays
      within the buffer that Base64::decode allocates. */
  lemma SizesFit(x: seq<byte>, extra: nat)
    ensures |Encoded(x)| == EncodedSize(|x|)
    ensures |Decoded(Encoded(x) + Padding(extra))| <= DecodedSize(|Encoded(x) + Padding(extra)|)
  {
    SextetCount(x);
    Sizes(|x|);
    RoundTrip(x, extra);
    assert EncodedSize(|x|) / 4 <= (EncodedSize(|x|) + extra) / 4;
  }

  lemma {:induction false} OctetCount(d: seq<sextet>)
    ensures |Octets(d)| == |d| / 4 * 3 + (if |d| % 4 == 0 then 0 else |d| % 4 - 1)
  {
    if |d| >= 4 {
      OctetCount(d[4..]);
    }
  }

  lemma {:induction false} DigitCount(s: seq<byte>)
    ensures |Digits(s)| <= |s|
  {
    if s != [] && Value(s[0]).Some? {
      DigitCount(s[1..]);
    }
  }

  lemma WholeGroups(d: nat, n: nat)
    requires d <= n
    ensures d / 4 <= n / 4
    ensures d / 4 < n / 4 ==> d / 4 * 3 + 3 <= n / 4 * 3
  {
  }

  /** Exactly when the decoded bytes fit the buffer that Base64::decode sizes by the length of its input:
      the letters before the first foreign character form whole groups of four (one left over counts
      for nothing), or the input goes on to at least the end of the last group. */
  lemma DecodedFitsIff(s: seq<byte>)
    ensures var d := |Digits(s)|;
            |Decoded(s)| <= DecodedSize(|s|) <==> d % 4 <= 1 || d / 4 < |s| / 4
  {
    OctetCount(Digits(s));
    DigitCount(s);
    WholeGroups(|Digits(s)|, |s|);
  }

  lemma DecodedLetters(x: seq<byte>)
    ensures Digits(Letters(x)) == Sextets(x) && Decoded(Letters(x)) == x
  {
    assert Letters(x) + [] == Letters(x);
    DigitsOfLetters(Sextets(x), []);
    OctetsOfSextets(x);
  }

  lemma NoGroupLeftOver(n: nat, d: nat)
    requires d == n / 3 * 4 + (if n % 3 == 0 then 0 else n % 3 + 1)
    ensures d % 4 <= 1 <==> n % 3 == 0
  {
  }

  /** Without its padding an encoding decodes to the same bytes, but they fit that buffer only if there
      was no padding to leave out. */
  lemma UnpaddedFitsIff(x: seq<byte>)
    ensures Decoded(Letters(x)) == x
    ensures |x| <= DecodedSize(|Letters(x)|) <==> |x| % 3 == 0
  {
    DecodedLetters(x);
    SextetCount(x);
    DecodedFitsIff(Letters(x));
    NoGroupLeftOver(|x|, |Sextets(x)|);
  }

  predicate InAlphabet(c: byte) { Value(c).Some? }

  /** Letters of the alphabet, then at most two padding characters at the very end. */
  lemma OutputAlphabet(x: seq<byte>)
    ensures var s := Encoded(x); var n := |s| - PadCount(|x|);
            && 0 <= n && PadCount(|x|) <= 2
            && (forall i :: 0 <= i < n ==> InAlphabet(s[i]))
            && (forall i :: n <= i < |s| ==> s[i] == 61)
  {
    forall i | 0 <= i < |Sextets(x)| ensures InAlphabet(Encoded(x)[i]) {
      LetterRoundTrip(Sextets(x)[i]);
      assert Encoded(x)[i] == Letter(Sextets(x)[i]);
    }
  }

  // ---------------------------------------------------------------- the routines

  /** The four letters of three octets. */
  function Group(a: byte, b: byte, c: byte): seq<byte> {
    [Letter(Sextet0(a)), Letter(Sextet1(a, b)), Letter(Sextet2(b, c)), Letter(Sextet3(c))]
  }

  lemma SextetsSplit(x: seq<byte>, i: nat)
    requires i + 3 <= |x|
    ensures Letters(x[i..]) == Group(x[i], x[i + 1], x[i + 2]) + Letters(x[i + 3..])
  {
    var four := [Sextet0(x[i]), Sextet1(x[i], x[i + 1]), Sextet2(x[i + 1], x[i + 2]), Sextet3(x[i + 2])];
    assert x[i..][3..] == x[i + 3..];
    assert Map(Letter, four) == Group(x[i], x[i + 1], x[i + 2]);
    MapAppend(Letter, four, Sextets(x[i + 3..]));
  }

  /** Stores `bytes` at position `at`. */
  method Put(dest: array<byte>, at: nat, bytes: seq<byte>)
    requires at + |bytes| <= dest.Length
    modifies dest
    ensures dest[..at + |bytes|] == old(dest[..at]) + bytes
  {
    for i := 0 to |bytes|
      invariant dest[..at + i] == old(dest[..at]) + bytes[..i]
    {
      dest[at + i] := bytes[i];
    }
  }

  /** Writes the letters of the octets n, n + 1 and n + 2 of `src`. */
  method EncodeGroup(dest: array<byte>, at: nat, src: seq<byte>, n: nat)
    requires n + 3 <= |src| && at + 4 <= dest.Length
    modifies dest
    ensures dest[..at + 4] + Letters(src[n + 3..]) == old(dest[..at]) + Letters(src[n..])
  {
    var four := Group(src[n], src[n + 1], src[n + 2]);
    Put(dest, at, four);
    SextetsSplit(src, n);
    Associative(old(dest[..at]), four, Letters(src[n + 3..]));
  }

  /** Writes the letters of all complete groups of three octets. */
  method EncodeGroups(dest: array<byte>, src: seq<byte>) returns (size: nat)
    requires dest.Length >= |src| / 3 * 4
    modifies dest
    ensures size == |src| / 3 * 4
    ensures dest[..size] + Letters(src[3 * (|src| / 3)..]) == Letters(src)
  {
    size := 0;
    for i := 0 to |src| / 3
      invariant size == 4 * i
      invariant dest[..size] + Letters(src[3 * i..]) == Letters(src)
    {
      EncodeGroup(dest, size, src, 3 * i);
      size := size + 4;
    }
  }

  /** Writes the encoding of `src` to the front of `dest`; returns its length. */
  method EncodeInto(dest: array<byte>, src: seq<byte>) returns (size: nat)
    requires dest.Length >= EncodedSize(|src|)
    modifies dest
    ensures size == |Encoded(src)| <= dest.Length && dest[..size] == Encoded(src)
  {
    Sizes(|src|);
    size := EncodeGroups(dest, src);
    ghost var done := dest[..size];
    ghost var rest := Letters(src[3 * (|src| / 3)..]);
    var tail := EncodedTail(src[3 * (|src| / 3)..]);
    Put(dest, size, tail);
    size := size + |tail|;
    Associative(done, rest, Padding(PadCount(|src|)));
  }

  lemma TailOfOne(a: byte)
    ensures Encoded([a]) == [Letter(Sextet0(a)), Letter(Sextet1(a, 0)), PAD, PAD]
  {
    assert Letters([a]) == [Letter(Sextet0(a)), Letter(Sextet1(a, 0))];
    assert Padding(2) == [PAD, PAD];
  }

  lemma TailOfTwo(a: byte, b: byte)
    ensures Encoded([a, b]) == [Letter(Sextet0(a)), Letter(Sextet1(a, b)), Letter(Sextet2(b, 0)), PAD]
  {
    assert Letters([a, b]) == [Letter(Sextet0(a)), Letter(Sextet1(a, b)), Letter(Sextet2(b, 0))];
    assert Padding(1) == [PAD];
  }

  /** The last one or two octets, with their padding. */
  method EncodedTail(tail: seq<byte>) returns (four: seq<byte>)
    requires |tail| < 3
    ensures four == Encoded(tail)
    ensures |four| == if tail == [] then 0 else 4
  {
    if |tail| == 2 {
      TailOfTwo(tail[0], tail[1]);
      assert tail == [tail[0], tail[1]];
      four := [Letter(Sextet0(tail[0])), Letter(Sextet1(tail[0], tail[1])), Letter(Sextet2(tail[1], 0)), PAD];
    } else if |tail| == 1 {
      TailOfOne(tail[0]);
      assert tail == [tail[0]];
      four := [Letter(Sextet0(tail[0])), Letter(Sextet1(tail[0], 0)), PAD, PAD];
    } else {
      four := [];
    }
  }

  lemma OctetsSplit(four: seq<sextet>, rest: seq<sextet>)
    requires |four| == 4
    ensures Octets(four + rest) == Octets(four) + Octets(rest)
    ensures |Octets(four)| == 3
  {
    var p, q, r, t := four[0], four[1], four[2], four[3];
    assert four == [p, q, r, t] + [];
    OctetsGroup(p, q, r, t, rest);
    OctetsGroup(p, q, r, t, []);
  }

  /** Stores the octets of up to four sextets; a single one is dropped. */
  method PutOctets(dest: array<byte>, at: nat, c4: seq<sextet>) returns (end: nat)
    requires |c4| <= 4 && at + |Octets(c4)| <= dest.Length
    modifies dest
    ensures end == at + |Octets(c4)| && dest[..end] == old(dest[..at]) + Octets(c4)
  {
    var bytes: seq<byte> := [];
    if |c4| >= 2 {
      bytes := bytes + [Octet0(c4[0], c4[1])];
    }
    if |c4| >= 3 {
      bytes := bytes + [Octet1(c4[1], c4[2])];
    }
    if |c4| == 4 {
      bytes := bytes + [Octet2(c4[2], c4[3])];
      assert c4[4..] == [] && Octets(c4[4..]) == [];
    }
    assert bytes == Octets(c4);
    Put(dest, at, bytes);
    end := at + |bytes|;
  }

  /** What the decoder has still to write: the octets of the sextets it holds and of those to come. */
  function Remaining(c4: seq<sextet>, src: seq<byte>, at: nat): seq<byte>
    requires at <= |src|
  {
    Octets(c4 + Digits(src[at..]))
  }

  lemma NextDigit(c4: seq<sextet>, src: seq<byte>, at: nat)
    requires at < |src| && Value(src[at]).Some?
    ensures Remaining(c4, src, at) == Remaining(c4 + [Value(src[at]).value], src, at + 1)
  {
    assert src[at..][1..] == src[at + 1..];
    Associative(c4, [Value(src[at]).value], Digits(src[at + 1..]));
  }

  lemma FullGroup(c4: seq<sextet>, src: seq<byte>, at: nat)
    requires at <= |src| && |c4| == 4
    ensures Remaining(c4, src, at) == Octets(c4) + Remaining([], src, at)
  {
    OctetsSplit(c4, Digits(src[at..]));
    assert [] + Digits(src[at..]) == Digits(src[at..]);
  }

  lemma NoMoreDigits(c4: seq<sextet>, src: seq<byte>, at: nat)
    requires at <= |src| && (at == |src| || Value(src[at]).None?)
    ensures Remaining(c4, src, at) == Octets(c4)
  {
    assert Digits(src[at..]) == [];
    assert c4 + [] == c4;
  }

  /** Writes what `src` decodes to to the front of `dest`; returns its length. */
  method DecodeInto(dest: array<byte>, src: seq<byte>) returns (size: nat)
    requires dest.Length >= |Decoded(src)|
    modifies dest
    ensures size == |Decoded(src)| && dest[..size] == Decoded(src)
  {
    var c4: seq<sextet> := [];
    var at := 0;
    size := 0;
    assert src[0..] == src && c4 + Digits(src) == Digits(src);
    while at < |src| && src[at] != PAD && Value(src[at]).Some?
      invariant at <= |src| && |c4| < 4 && size <= dest.Length
      invariant dest[..size] + Remaining(c4, src, at) == Decoded(src)
      decreases |src| - at
    {
      NextDigit(c4, src, at);
      c4 := c4 + [Value(src[at]).value];
      at := at + 1;
      if |c4| == 4 {
        FullGroup(c4, src, at);
        Associative(dest[..size], Octets(c4), Remaining([], src, at));
        size := PutOctets(dest, size, c4);
        c4 := [];
      }
    }
    NoMoreDigits(c4, src, at);
    size := PutOctets(dest, size, c4);
  }

  /** Base64::encode. */
  method Encode(input: seq<byte>) returns (output: seq<byte>)
    ensures output == Encoded(input)
    ensures Decoded(output) == input
  {
    var buffer := new byte[EncodedSize(|input|)];
    var size := EncodeInto(buffer, input);
    output := buffer[..size];
    RoundTrip(input, 0);
    assert Encoded(input) + Padding(0) == Encoded(input);
  }

  /** Base64::decode, for input whose bytes fit the buffer sized by the length of the input. */
  method Decode(input: seq<byte>) returns (output: seq<byte>)
    requires |Decoded(input)| <= DecodedSize(|input|)
    ensures output == Decoded(input)
    ensures forall x: seq<byte>, n: nat :: input == Encoded(x) + Padding(n) ==> output == x
  {
    var buffer := new byte[DecodedSize(|input|)];
    var size := DecodeInto(buffer, input);
    output := buffer[..size];
    forall x: seq<byte>, n: nat | input == Encoded(x) + Padding(n) ensures output == x {
      RoundTrip(x, n);
    }
  }
}
