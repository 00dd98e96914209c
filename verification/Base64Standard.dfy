/** Base64 in the terms of section 4 of RFC 4648: the alphabet as a string, and the bits of groups of three
    octets and four characters as numbers. What src/utils/base64.cpp computes agrees with it. */
module Base64Standard {
  import opened Common
  import opened Base64

  /** The alphabet of Table 1, in the order of the values. */
  const ALPHABET: string :=
    "ABCDEFGH" + "IJKLMNOP" + "QRSTUVWX" + "YZabcdef" + "ghijklmn" + "opqrstuv" + "wxyz0123" + "456789+/"

  /** The characters of `s` are those with the values from `at` on. */
  predicate InOrder(s: string, at: nat) {
    at + |s| <= 64 && forall i :: 0 <= i < |s| ==> s[i] as int == Letter(at + i)
  }

  lemma RowsInOrder()
    ensures InOrder("ABCDEFGH", 0) && InOrder("IJKLMNOP", 8) && InOrder("QRSTUVWX", 16) && InOrder("YZabcdef", 24)
    ensures InOrder("ghijklmn", 32) && InOrder("opqrstuv", 40) && InOrder("wxyz0123", 48) && InOrder("456789+/", 56)
  {
  }

  lemma InOrderAppend(a: string, b: string, at: nat)
    requires InOrder(a, at) && InOrder(b, at + |a|)
    ensures InOrder(a + b, at)
  {
    forall i | 0 <= i < |a + b| ensures (a + b)[i] as int == Letter(at + i) {
      if i >= |a| {
        assert b[i - |a|] as int == Letter(at + |a| + (i - |a|));
      }
    }
  }

  lemma AlphabetInOrder()
    ensures |ALPHABET| == 64 && InOrder(ALPHABET, 0)
  {
    RowsInOrder();
    var s := "ABCDEFGH";
    InOrderAppend(s, "IJKLMNOP", 0);
    s := s + "IJKLMNOP";
    InOrderAppend(s, "QRSTUVWX", 0);
    s := s + "QRSTUVWX";
    InOrderAppend(s, "YZabcdef", 0);
    s := s + "YZabcdef";
    InOrderAppend(s, "ghijklmn", 0);
    s := s + "ghijklmn";
    InOrderAppend(s, "opqrstuv", 0);
    s := s + "opqrstuv";
    InOrderAppend(s, "wxyz0123", 0);
    s := s + "wxyz0123";
    InOrderAppend(s, "456789+/", 0);
  }

  /** A character is worth v exactly if it is the one at place v of the alphabet. */
  lemma ValueInvertsAlphabet(c: byte, v: sextet)
    ensures Value(c) == Some(v) <==> v < |ALPHABET| && ALPHABET[v] as int == c
  {
    AlphabetInOrder();
    LetterRoundTrip(v);
  }

  // ---------------------------------------------------------------- 24 bits

  function OctetAt(x: seq<byte>, i: nat): int { if i < |x| then x[i] else 0 }

  function SextetAt(d: seq<sextet>, i: nat): int { if i < |d| then d[i] else 0 }

  /** The 24 bits of the octets 3k, 3k + 1 and 3k + 2, the first one highest; missing ones are zero. */
  function OctetBits(x: seq<byte>, k: nat): int {
    OctetAt(x, 3 * k) * 65536 + OctetAt(x, 3 * k + 1) * 256 + OctetAt(x, 3 * k + 2)
  }

  /** The 24 bits of the sextets 4k to 4k + 3. */
  function SextetBits(d: seq<sextet>, k: nat): int {
    SextetAt(d, 4 * k) * 262144 + SextetAt(d, 4 * k + 1) * 4096 + SextetAt(d, 4 * k + 2) * 64 + SextetAt(d, 4 * k + 3)
  }

  /** The j-th of the four groups of six bits. */
  function Six(bits: int, j: nat): int {
    if j == 0 then bits / 262144 % 64
    else if j == 1 then bits / 4096 % 64
    else if j == 2 then bits / 64 % 64
    else bits % 64
  }

  /** The j-th of the three groups of eight bits. */
  function Eight(bits: int, j: nat): int {
    if j == 0 then bits / 65536 % 256
    else if j == 1 then bits / 256 % 256
    else bits % 256
  }

  lemma SixOf(p: sextet, q: sextet, r: sextet, t: sextet)
    ensures var bits := (p as int) * 262144 + (q as int) * 4096 + (r as int) * 64 + t as int;
            Six(bits, 0) == p && Six(bits, 1) == q && Six(bits, 2) == r && Six(bits, 3) == t
  {
    var bits := (p as int) * 262144 + (q as int) * 4096 + (r as int) * 64 + t as int;
    assert bits / 262144 == p;
    assert bits / 4096 == (p as int) * 64 + q as int;
    assert bits / 64 == (p as int) * 4096 + (q as int) * 64 + r as int;
  }

  lemma EightOf(a: byte, b: byte, c: byte)
    ensures var bits := (a as int) * 65536 + (b as int) * 256 + c as int;
            Eight(bits, 0) == a && Eight(bits, 1) == b && Eight(bits, 2) == c
  {
    var bits := (a as int) * 65536 + (b as int) * 256 + c as int;
    assert bits / 65536 == a;
    assert bits / 256 == (a as int) * 256 + b as int;
  }

  lemma SameBitsEncoding(a: byte, b: byte, c: byte)
    ensures (Sextet0(a) as int) * 262144 + (Sextet1(a, b) as int) * 4096 + (Sextet2(b, c) as int) * 64
            + Sextet3(c) as int
         == (a as int) * 65536 + (b as int) * 256 + c as int
  {
    var a1, a2, b1, b2, c1, c2 := a / 4, a % 4, b / 16, b % 16, c / 64, c % 64;
    assert a == 4 * (a1 as int) + a2 && b == 16 * (b1 as int) + b2 && c == 64 * (c1 as int) + c2;
  }

  lemma SameBitsDecoding(p: sextet, q: sextet, r: sextet, t: sextet)
    ensures (Octet0(p, q) as int) * 65536 + (Octet1(q, r) as int) * 256 + Octet2(r, t) as int
         == (p as int) * 262144 + (q as int) * 4096 + (r as int) * 64 + t as int
  {
    var q1, q2, r1, r2 := q / 16, q % 16, r / 4, r % 4;
    assert q == 16 * (q1 as int) + q2 && r == 4 * (r1 as int) + r2;
  }

  /** The sextets of a group, from the bits of its octets. */
  lemma GroupOfOctets(a: byte, b: byte, c: byte)
    ensures var bits := (a as int) * 65536 + (b as int) * 256 + c as int;
            && Six(bits, 0) == Sextet0(a) && Six(bits, 1) == Sextet1(a, b)
            && Six(bits, 2) == Sextet2(b, c) && Six(bits, 3) == Sextet3(c)
  {
    SixOf(Sextet0(a), Sextet1(a, b), Sextet2(b, c), Sextet3(c));
    SameBitsEncoding(a, b, c);
  }

  lemma GroupOfSextets(p: sextet, q: sextet, r: sextet, t: sextet)
    ensures var bits := (p as int) * 262144 + (q as int) * 4096 + (r as int) * 64 + t as int;
            Eight(bits, 0) == Octet0(p, q) && Eight(bits, 1) == Octet1(q, r) && Eight(bits, 2) == Octet2(r, t)
  {
    EightOf(Octet0(p, q), Octet1(q, r), Octet2(r, t));
    SameBitsDecoding(p, q, r, t);
  }

  // ---------------------------------------------------------------- encoding

  lemma FirstGroup(x: seq<byte>, j: nat)
    requires j < 4 && j < |Sextets(x)|
    ensures Sextets(x)[j] == Six(OctetBits(x, 0), j)
  {
    var a, b, c := x[0], OctetAt(x, 1), OctetAt(x, 2);
    GroupOfOctets(a, b, c);
    assert OctetBits(x, 0) == (a as int) * 65536 + b * 256 + c;
    assert Sextets(x)[0] == Sextet0(a) && Sextets(x)[1] == Sextet1(a, b);
    assert |x| >= 2 ==> Sextets(x)[2] == Sextet2(b, c);
    assert |x| >= 3 ==> Sextets(x)[3] == Sextet3(c);
    assert |x| == 1 ==> |Sextets(x)| == 2;
    assert |x| == 2 ==> |Sextets(x)| == 3;
  }

  lemma NextGroup(x: seq<byte>, k: nat, j: nat)
    requires k > 0 && |x| >= 3 && 4 * k + j < |Sextets(x)|
    ensures 4 * (k - 1) + j < |Sextets(x[3..])|
    ensures Sextets(x)[4 * k + j] == Sextets(x[3..])[4 * (k - 1) + j]
    ensures OctetBits(x, k) == OctetBits(x[3..], k - 1)
  {
    var four := [Sextet0(x[0]), Sextet1(x[0], x[1]), Sextet2(x[1], x[2]), Sextet3(x[2])];
    assert Sextets(x) == four + Sextets(x[3..]);
  }

  lemma {:induction false} SextetsAreBits(x: seq<byte>, k: nat, j: nat)
    requires j < 4 && 4 * k + j < |Sextets(x)|
    ensures Sextets(x)[4 * k + j] == Six(OctetBits(x, k), j)
  {
    if k == 0 {
      FirstGroup(x, j);
    } else {
      NextGroup(x, k, j);
      SextetsAreBits(x[3..], k - 1, j);
    }
  }

  lemma LetterCount(n: nat)
    ensures n / 3 * 4 + (if n % 3 == 0 then 0 else n % 3 + 1) == (4 * n + 2) / 3
    ensures (4 * n + 2) / 3 + PadCount(n) == 4 * ((n + 2) / 3)
  {
    var q, r := n / 3, n % 3;
    assert n == 3 * q + r;
    assert (n + 2) / 3 == if r == 0 then q else q + 1;
  }

  /** The encoding, character by character: the letters for the groups of six bits, ceil(4n/3) of them, and
      then '=' up to a multiple of four. */
  lemma EncodedIsStandard(x: seq<byte>)
    ensures |Encoded(x)| == 4 * ((|x| + 2) / 3) && |ALPHABET| == 64
    ensures forall i :: 0 <= i < |Encoded(x)| ==>
              Encoded(x)[i] == (if i < (4 * |x| + 2) / 3 then ALPHABET[Six(OctetBits(x, i / 4), i % 4)] else '=') as int
  {
    AlphabetInOrder();
    SextetCount(x);
    LetterCount(|x|);
    forall i | 0 <= i < |Encoded(x)|
      ensures Encoded(x)[i]
           == (if i < (4 * |x| + 2) / 3 then ALPHABET[Six(OctetBits(x, i / 4), i % 4)] else '=') as int
    {
      if i < |Sextets(x)| {
        SextetsAreBits(x, i / 4, i % 4);
        assert Encoded(x)[i] == Letter(Sextets(x)[i]);
      }
    }
  }

  // ---------------------------------------------------------------- decoding

  /** Decoding looks at the leading characters of the alphabet and stops at the first other one. */
  lemma {:induction false} DigitsAreLeading(s: seq<byte>)
    ensures var n := |Digits(s)|;
            && n <= |s| && |ALPHABET| == 64
            && (forall i :: 0 <= i < n ==> ALPHABET[Digits(s)[i]] as int == s[i])
            && (n < |s| ==> forall v: sextet :: ALPHABET[v] as int != s[n])
  {
    AlphabetInOrder();
    if s != [] {
      if Value(s[0]).Some? {
        DigitsAreLeading(s[1..]);
        ValueInvertsAlphabet(s[0], Value(s[0]).value);
        assert Digits(s) == [Value(s[0]).value] + Digits(s[1..]);
      } else {
        forall v: sextet ensures ALPHABET[v] as int != s[0] {
          ValueInvertsAlphabet(s[0], v);
        }
      }
    }
  }

  lemma {:induction false} OctetsAreBits(d: seq<sextet>, k: nat, j: nat)
    requires j < 3 && 3 * k + j < |Octets(d)|
    ensures Octets(d)[3 * k + j] == Eight(SextetBits(d, k), j)
  {
    if k == 0 {
      GroupOfSextets(d[0], d[1], SextetAt(d, 2), SextetAt(d, 3));
    } else {
      assert Octets(d) == [Octet0(d[0], d[1]), Octet1(d[1], d[2]), Octet2(d[2], d[3])] + Octets(d[4..]);
      OctetsAreBits(d[4..], k - 1, j);
      assert SextetBits(d[4..], k - 1) == SextetBits(d, k);
    }
  }

  lemma WholeOctets(d: nat)
    ensures d / 4 * 3 + (if d % 4 == 0 then 0 else d % 4 - 1) == 3 * d / 4
  {
    var q, r := d / 4, d % 4;
    assert d == 4 * q + r;
  }

  /** The decoded bytes: as many as the leading letters have whole octets, and each of them eight bits. */
  lemma DecodedIsStandard(s: seq<byte>)
    ensures |Decoded(s)| == 3 * |Digits(s)| / 4
    ensures forall i :: 0 <= i < |Decoded(s)| ==> Decoded(s)[i] == Eight(SextetBits(Digits(s), i / 3), i % 3)
  {
    OctetCount(Digits(s));
    WholeOctets(|Digits(s)|);
    forall i | 0 <= i < |Decoded(s)| ensures Decoded(s)[i] == Eight(SextetBits(Digits(s), i / 3), i % 3) {
      OctetsAreBits(Digits(s), i / 3, i % 3);
    }
  }
}
