/** Base64 by section 4 of RFC 4648. */
module Base64 {
  import opened Common
  import opened Text

  // ------------------------------------------------------------------- alphabet

  /** CHAR_TABLE. */
  function CharOf(i: int): (c: byte)
    requires 0 <= i < 64
    ensures IndexOf(c) == i
  {
    if i < 26 then ('A' as int + i) as char
    else if i < 52 then ('a' as int + (i - 26)) as char
    else if i < 62 then ('0' as int + (i - 52)) as char
    else if i == 62 then '+' else '/'
  }

  /** INDEX_TABLE. */
  function IndexOf(c: char): (i: int)
    ensures -1 <= i < 64
  {
    if 'A' <= c <= 'Z' then c as int - 'A' as int
    else if 'a' <= c <= 'z' then c as int - 'a' as int + 26
    else if '0' <= c <= '9' then c as int - '0' as int + 52
    else if c == '+' then 62
    else if c == '/' then 63
    else -1
  }

  const UpperLetters: string := "ABCDEFGHIJKLMNOPQRSTUVWXYZ"
  const LowerLetters: string := "abcdefghijklmnopqrstuvwxyz"
  const DigitsAndSigns: string := "0123456789+/"

  /** Table 1 of RFC 4648. */
  const Alphabet: string := UpperLetters + LowerLetters + DigitsAndSigns

  lemma UpperLettersAre(i: nat)
    requires i < 26
    ensures |UpperLetters| == 26 && UpperLetters[i] as int == 'A' as int + i
  {
  }

  lemma LowerLettersAre(i: nat)
    requires i < 26
    ensures |LowerLetters| == 26 && LowerLetters[i] as int == 'a' as int + i
  {
  }

  lemma DigitsAndSignsAre(i: nat)
    requires i < 12
    ensures |DigitsAndSigns| == 12
    ensures DigitsAndSigns[i] == if i < 10 then ('0' as int + i) as char else if i == 10 then '+' else '/'
  {
  }

  lemma CharOfIsAlphabet(i: int)
    requires 0 <= i < 64
    ensures |Alphabet| == 64 && CharOf(i) == Alphabet[i]
  {
    UpperLettersAre(if i < 26 then i else 0);
    LowerLettersAre(if 26 <= i < 52 then i - 26 else 0);
    DigitsAndSignsAre(if i >= 52 then i - 52 else 0);
    hide UpperLetters, LowerLetters, DigitsAndSigns, IndexOf;
  }

  lemma CharOfIndex(c: char)
    requires IndexOf(c) != -1
    ensures CharOf(IndexOf(c)) == c
  {
  }

  // ---------------------------------------------------------------- specification

  /** Four characters for the 24 bits of `n`. */
  function Quad(n: int): (q: bytes)
    requires 0 <= n < 0x100_0000
    ensures |q| == 4
  {
    [CharOf(n / 0x4_0000), CharOf(n / 0x1000 % 64), CharOf(n / 64 % 64), CharOf(n % 64)]
  }

  function Bits(x: bytes): (n: int)
    requires |x| == 3
    ensures 0 <= n < 0x100_0000
  {
    x[0] as int * 0x1_0000 + x[1] as int * 0x100 + x[2] as int
  }

  function Encoded(x: bytes): (s: bytes)
    decreases |x|
  {
    if |x| == 0 then []
    else if |x| == 1 then Quad(Bits(x + ['\0', '\0']))[..2] + ['=', '=']
    else if |x| == 2 then Quad(Bits(x + ['\0']))[..3] + ['=']
    else Quad(Bits(x[..3])) + Encoded(x[3..])
  }

  /** The number that the first `k` characters of a group add up to. */
  function Sum(s: string, k: nat): (n: int)
    requires k <= |s| && k <= 4 && forall j :: 0 <= j < k ==> IndexOf(s[j]) != -1
    ensures 0 <= n <= 0x100_0000 - Weight(k)
  {
    if k == 0 then 0 else Sum(s, k - 1) + IndexOf(s[k - 1]) * Weight(k)
  }

  /** What a unit of the k-th character of a group is worth. */
  function Weight(k: nat): int
    requires k <= 4
  {
    if k == 0 then 0x100_0000 else if k == 1 then 0x4_0000 else if k == 2 then 0x1000 else if k == 3 then 64 else 1
  }

  function Byte0(n: int): byte requires 0 <= n < 0x100_0000 { (n / 0x1_0000) as char }
  function Byte1(n: int): byte requires 0 <= n < 0x100_0000 { (n / 0x100 % 0x100) as char }
  function Byte2(n: int): byte requires 0 <= n < 0x100_0000 { (n % 0x100) as char }

  /** The decoded bytes, or nothing for a malformed text. */
  function Decoding(s: string): Option<bytes>
    decreases |s|
  {
    if |s| % 4 != 0 then None
    else if s == [] then Some([])
    else if IndexOf(s[0]) == -1 || IndexOf(s[1]) == -1 then None
    else if IndexOf(s[2]) == -1 then
      if s[2] == '=' && s[3] == '=' && |s| == 4 then Some([Byte0(Sum(s, 2))]) else None
    else if IndexOf(s[3]) == -1 then
      if s[3] == '=' && |s| == 4 then Some([Byte0(Sum(s, 3)), Byte1(Sum(s, 3))]) else None
    else
      var n := Sum(s, 4);
      match Decoding(s[4..])
      case None => None
      case Some(rest) => Some([Byte0(n), Byte1(n), Byte2(n)] + rest)
  }

  /** The result of `decode`, which reports a malformed text as an empty one. */
  function Decoded(s: string): bytes {
    match Decoding(s)
    case None => []
    case Some(x) => x
  }

  // ---------------------------------------------------------------- arithmetic

  lemma Div64(n: nat)
    ensures n / 64 / 64 == n / 0x1000 && n / 0x1000 / 64 == n / 0x4_0000
  {
    var q, r := n / 64, n / 0x1000;
    assert n == 64 * q + n % 64 && q == 64 * (q / 64) + q % 64;
    assert 0x1000 * (q / 64) <= n < 0x1000 * (q / 64) + 0x1000;
    assert n == 0x1000 * r + n % 0x1000 && r == 64 * (r / 64) + r % 64;
    assert 0x4_0000 * (r / 64) <= n < 0x4_0000 * (r / 64) + 0x4_0000;
  }

  lemma SextetsOf(n: nat)
    ensures n == n / 0x4_0000 * 0x4_0000 + n / 0x1000 % 64 * 0x1000 + n / 64 % 64 * 64 + n % 64
  {
    Div64(n);
    var a, b := n / 64, n / 0x1000;
    assert n == 64 * a + n % 64 && a == 64 * (a / 64) + a % 64 && b == 64 * (b / 64) + b % 64;
  }

  lemma BytesOf(n: nat)
    ensures n == n / 0x1_0000 * 0x1_0000 + n / 0x100 % 0x100 * 0x100 + n % 0x100
  {
    var q := n / 0x100;
    assert n == 0x100 * q + n % 0x100 && q == 0x100 * (q / 0x100) + q % 0x100;
    assert 0x1_0000 * (q / 0x100) <= n < 0x1_0000 * (q / 0x100) + 0x1_0000;
  }

  lemma FromSextets(a: int, b: int, c: int, d: int)
    requires 0 <= a < 64 && 0 <= b < 64 && 0 <= c < 64 && 0 <= d < 64
    ensures var n := a * 0x4_0000 + b * 0x1000 + c * 64 + d;
            0 <= n < 0x100_0000 && n / 0x4_0000 == a && n / 0x1000 % 64 == b && n / 64 % 64 == c && n % 64 == d
  {
    var n := a * 0x4_0000 + b * 0x1000 + c * 64 + d;
    assert n / 64 == a * 0x1000 + b * 64 + c && n / 0x1000 == a * 64 + b;
  }

  lemma FromBytes(a: int, b: int, c: int)
    requires 0 <= a < 256 && 0 <= b < 256 && 0 <= c < 256
    ensures var n := a * 0x1_0000 + b * 0x100 + c;
            n / 0x1_0000 == a && n / 0x100 % 0x100 == b && n % 0x100 == c
  {
    assert (a * 0x1_0000 + b * 0x100 + c) / 0x100 == a * 0x100 + b;
  }

  // -------------------------------------------------------------------- one group

  lemma SumOf(s: string, k: nat)
    requires 2 <= k <= 4 && k <= |s| && forall j :: 0 <= j < k ==> IndexOf(s[j]) != -1
    ensures Sum(s, k) == IndexOf(s[0]) * 0x4_0000 + IndexOf(s[1]) * 0x1000
                       + (if k > 2 then IndexOf(s[2]) * 64 else 0) + (if k > 3 then IndexOf(s[3]) else 0)
  {
    hide IndexOf;
    assert Sum(s, 1) == IndexOf(s[0]) * 0x4_0000;
    assert Sum(s, 2) == Sum(s, 1) + IndexOf(s[1]) * 0x1000;
    if k > 2 {
      assert Sum(s, 3) == Sum(s, 2) + IndexOf(s[2]) * 64;
    }
  }

  lemma QuadIndices(n: int)
    requires 0 <= n < 0x100_0000
    ensures var q := Quad(n);
            && IndexOf(q[0]) == n / 0x4_0000 && IndexOf(q[1]) == n / 0x1000 % 64
            && IndexOf(q[2]) == n / 64 % 64 && IndexOf(q[3]) == n % 64
  {
    hide IndexOf, CharOf;
  }

  /** Decoding the first k characters of an encoded group gives its number back, if the rest is zero. */
  lemma QuadSum(n: int, s: string, k: nat)
    requires 0 <= n < 0x100_0000 && 2 <= k <= 4 && k <= |s| && s[..k] == Quad(n)[..k]
    requires k == 2 ==> n % 0x1000 == 0
    requires k == 3 ==> n % 64 == 0
    ensures forall j :: 0 <= j < k ==> IndexOf(s[j]) != -1
    ensures Sum(s, k) == n
  {
    hide IndexOf, Quad, Sum;
    QuadIndices(n);
    forall j | 0 <= j < k ensures s[j] == Quad(n)[j] {
      assert s[..k][j] == Quad(n)[..k][j];
    }
    SumOf(s, k);
    SextetsOf(n);
    if k == 2 {
      TwelveZeroBits(n);
    }
  }

  lemma TwelveZeroBits(n: nat)
    requires n % 0x1000 == 0
    ensures n % 64 == 0 && n / 64 % 64 == 0
  {
    var r := n / 0x1000;
    assert n == 64 * (64 * r);
    assert n / 64 == 64 * r;
  }

  lemma Mod64(q: nat, r: nat)
    requires r < 64
    ensures (64 * q + r) % 64 == r
  {
  }

  lemma SixteenTimes(r: nat)
    ensures 16 * r % 64 == 16 * (r % 4) && 16 * (r % 4) % 16 == 0
  {
    assert r == 4 * (r / 4) + r % 4;
    Mod64(r / 4, 16 * (r % 4));
  }

  lemma FourTimes(r: nat)
    ensures 4 * r % 64 == 4 * (r % 16) && 4 * (r % 16) % 4 == 0
  {
    assert r == 16 * (r / 16) + r % 16;
    Mod64(r / 16, 4 * (r % 16));
  }

  lemma SixteenZeroBits(n: nat, r: nat)
    requires n == 0x1_0000 * r
    ensures n % 0x1000 == 0 && n / 0x1000 % 64 % 16 == 0
  {
    assert n / 0x1000 == 16 * r;
    SixteenTimes(r);
  }

  lemma EightZeroBits(n: nat, r: nat)
    requires n == 0x100 * r
    ensures n % 64 == 0 && n / 64 % 64 % 4 == 0
  {
    assert n / 64 == 4 * r;
    FourTimes(r);
  }

  lemma BitsBytes(x: bytes)
    requires |x| == 3
    ensures Byte0(Bits(x)) == x[0] && Byte1(Bits(x)) == x[1] && Byte2(Bits(x)) == x[2]
    ensures x[1] == x[2] == '\0' ==> Bits(x) == 0x1_0000 * x[0] as int
    ensures x[2] == '\0' ==> Bits(x) == 0x100 * (0x100 * x[0] as int + x[1] as int)
  {
    FromBytes(x[0] as int, x[1] as int, x[2] as int);
  }

  // -------------------------------------------------------------------- round trips

  lemma OneDecoded(x: bytes)
    requires |x| == 1
    ensures Decoding(Encoded(x)) == Some(x)
  {
    hide IndexOf, Quad, Bits, Sum, Byte0, Byte1, Byte2;
    var s, padded := Encoded(x), x + ['\0', '\0'];
    var n := Bits(padded);
    assert |s| == 4 && s[2] == s[3] == '=' && s[..2] == Quad(n)[..2];
    hide Encoded, Decoding;
    NoPadding();
    BitsBytes(padded);
    SixteenZeroBits(n, x[0] as int);
    QuadSum(n, s, 2);
    DecodingStops(s, 2);
    assert x == [padded[0]];
  }

  lemma TwoDecoded(x: bytes)
    requires |x| == 2
    ensures Decoding(Encoded(x)) == Some(x)
  {
    hide IndexOf, Quad, Bits, Sum, Byte0, Byte1, Byte2;
    var s, padded := Encoded(x), x + ['\0'];
    var n := Bits(padded);
    assert |s| == 4 && s[3] == '=' && s[..3] == Quad(n)[..3];
    hide Encoded, Decoding;
    NoPadding();
    BitsBytes(padded);
    EightZeroBits(n, 0x100 * x[0] as int + x[1] as int);
    QuadSum(n, s, 3);
    DecodingStops(s, 3);
    assert x == [padded[0], padded[1]];
  }

  lemma {:induction false} DecodingEncoded(x: bytes)
    ensures Decoding(Encoded(x)) == Some(x)
    decreases |x|
  {
    hide IndexOf, Quad, Bits, Sum, Byte0, Byte1, Byte2, Encoded, Decoding;
    if |x| == 0 {
      NothingCoded();
      assert x == [];
    } else if |x| == 1 {
      OneDecoded(x);
    } else if |x| == 2 {
      TwoDecoded(x);
    } else {
      var s, n := Encoded(x), Bits(x[..3]);
      EncodedUnfolds(x);
      GroupAndRest(n, Encoded(x[3..]));
      BitsBytes(x[..3]);
      QuadSum(n, s, 4);
      DecodingEncoded(x[3..]);
      FourMore(s);
      DecodingGoesOn(s);
      assert x == [x[0], x[1], x[2]] + x[3..];
    }
  }

  lemma NoPadding()
    ensures IndexOf('=') == -1
  {
  }

  /** Decoding undoes encoding, for every byte string. */
  lemma DecodeEncode(x: bytes)
    ensures Decoded(Encoded(x)) == x
  {
    DecodingEncoded(x);
  }

  predicate OnePadded(s: string) {
    |s| == 4 && IndexOf(s[2]) != -1 && IndexOf(s[2]) % 4 == 0 && s[3] == '='
  }

  predicate TwoPadded(s: string) {
    |s| == 4 && IndexOf(s[1]) % 16 == 0 && s[2] == '=' && s[3] == '='
  }

  /** Section 4 of RFC 4648, with the padding bits zero (section 3.5): groups of four characters of the
      alphabet, of which the last may end in one or two padding characters. */
  predicate Canonical(s: string)
    decreases |s|
  {
    s == [] ||
    (|s| >= 4 && IndexOf(s[0]) != -1 && IndexOf(s[1]) != -1 &&
      (TwoPadded(s) || OnePadded(s) || (IndexOf(s[2]) != -1 && IndexOf(s[3]) != -1 && Canonical(s[4..]))))
  }

  lemma TwoPaddedNumber(a: int, b: int)
    requires b % 16 == 0
    ensures (a * 0x4_0000 + b * 0x1000) % 0x1_0000 == 0
  {
    assert a * 0x4_0000 + b * 0x1000 == 0x1_0000 * (4 * a + b / 16);
  }

  lemma OnePaddedNumber(a: int, b: int, c: int)
    requires c % 4 == 0
    ensures (a * 0x4_0000 + b * 0x1000 + c * 64) % 0x100 == 0
  {
    assert a * 0x4_0000 + b * 0x1000 + c * 64 == 0x100 * (0x400 * a + 16 * b + c / 4);
  }

  /** Encoding the number of a group gives its characters back. */
  lemma QuadOfSum(s: string, k: nat)
    requires 2 <= k <= 4 && k <= |s| && forall j :: 0 <= j < k ==> IndexOf(s[j]) != -1
    ensures Quad(Sum(s, k))[..k] == s[..k]
    ensures k == 2 && IndexOf(s[1]) % 16 == 0 ==> Sum(s, k) % 0x1_0000 == 0
    ensures k == 3 && IndexOf(s[2]) % 4 == 0 ==> Sum(s, k) % 0x100 == 0
  {
    hide Sum, IndexOf, CharOf;
    var a, b := IndexOf(s[0]), IndexOf(s[1]);
    var c, d := if k > 2 then IndexOf(s[2]) else 0, if k > 3 then IndexOf(s[3]) else 0;
    SumOf(s, k);
    FromSextets(a, b, c, d);
    if k == 2 && b % 16 == 0 {
      TwoPaddedNumber(a, b);
    }
    if k == 3 && c % 4 == 0 {
      OnePaddedNumber(a, b, c);
    }
    forall j | 0 <= j < k ensures Quad(Sum(s, k))[j] == s[j] {
      CharOfIndex(s[j]);
    }
    assert |Quad(Sum(s, k))| == 4;
    hide Quad;
    assert Quad(Sum(s, k))[..k] == s[..k];
  }

  lemma BitsOfBytes(n: int)
    requires 0 <= n < 0x100_0000
    ensures Bits([Byte0(n), Byte1(n), Byte2(n)]) == n
    ensures n % 0x1_0000 == 0 ==> Bits([Byte0(n), '\0', '\0']) == n
    ensures n % 0x100 == 0 ==> Bits([Byte0(n), Byte1(n), '\0']) == n
  {
    BytesOf(n);
  }

  lemma EncodedTwoPadded(s: string)
    requires TwoPadded(s) && IndexOf(s[0]) != -1 && IndexOf(s[1]) != -1
    ensures Decoding(s).Some? && Encoded(Decoded(s)) == s
  {
    hide IndexOf, Quad, Bits, Sum, Byte0;
    NoPadding();
    QuadOfSum(s, 2);
    var n := Sum(s, 2);
    BitsOfBytes(n);
    assert Decoded(s) == [Byte0(n)] && [Byte0(n)] + ['\0', '\0'] == [Byte0(n), '\0', '\0'];
    assert s == s[..2] + ['=', '='];
  }

  lemma EncodedOnePadded(s: string)
    requires OnePadded(s) && IndexOf(s[0]) != -1 && IndexOf(s[1]) != -1
    ensures Decoding(s).Some? && Encoded(Decoded(s)) == s
  {
    hide IndexOf, Quad, Bits, Sum, Byte0, Byte1;
    NoPadding();
    QuadOfSum(s, 3);
    var n := Sum(s, 3);
    BitsOfBytes(n);
    assert Decoded(s) == [Byte0(n), Byte1(n)] && [Byte0(n), Byte1(n)] + ['\0'] == [Byte0(n), Byte1(n), '\0'];
    assert s == s[..3] + ['='];
  }

  lemma FourMore(s: string)
    requires |s| >= 4 && Decoding(s[4..]).Some?
    ensures |s| % 4 == 0
  {
    hide Decoding;
    SomeIsWhole(s[4..]);
    FourTimesFour(s, |s[4..]| / 4);
  }

  lemma FourTimesFour(s: string, k: nat)
    requires |s| == 4 * k + 4
    ensures |s| % 4 == 0
  {
    assert |s| == 4 * (k + 1);
  }

  lemma SomeIsWhole(s: string)
    requires Decoding(s).Some?
    ensures |s| == 4 * (|s| / 4)
  {
    hide Sum, IndexOf, Byte0, Byte1, Byte2;
  }

  lemma EncodedGroup(s: string)
    requires |s| >= 4 && forall j :: 0 <= j < 4 ==> IndexOf(s[j]) != -1
    requires Decoding(s[4..]).Some? && Encoded(Decoded(s[4..])) == s[4..]
    ensures Decoding(s).Some? && Encoded(Decoded(s)) == s
  {
    hide IndexOf, Quad, Bits, Sum, Byte0, Byte1, Byte2, Decoding, Encoded;
    FourMore(s);
    DecodingGoesOn(s);
    QuadOfSum(s, 4);
    var n, rest := Sum(s, 4), Decoded(s[4..]);
    BitsOfBytes(n);
    var x := [Byte0(n), Byte1(n), Byte2(n)] + rest;
    assert x[..3] == [Byte0(n), Byte1(n), Byte2(n)] && x[3..] == rest;
    EncodedUnfolds(x);
    assert s == s[..4] + s[4..] && Quad(n)[..4] == Quad(n);
  }

  lemma NothingCoded()
    ensures Encoded([]) == [] && Decoding([]) == Some([]) && Decoded([]) == []
  {
  }

  lemma FullGroupFirst(s: string)
    requires Canonical(s) && s != [] && !TwoPadded(s) && !OnePadded(s)
    ensures |s| >= 4 && (forall j :: 0 <= j < 4 ==> IndexOf(s[j]) != -1) && Canonical(s[4..])
  {
    hide IndexOf, TwoPadded, OnePadded;
  }

  lemma FirstTwoInAlphabet(s: string)
    requires Canonical(s) && s != []
    ensures |s| >= 4 && IndexOf(s[0]) != -1 && IndexOf(s[1]) != -1
  {
    hide IndexOf, TwoPadded, OnePadded;
  }

  lemma {:induction false} EncodedCanonical(s: string)
    requires Canonical(s)
    ensures Decoding(s).Some? && Encoded(Decoded(s)) == s
    decreases |s|
  {
    hide IndexOf, Canonical, Decoding, Encoded, Decoded;
    if s == [] {
      NothingCoded();
    } else {
      FirstTwoInAlphabet(s);
      hide TwoPadded, OnePadded;
      if TwoPadded(s) {
        EncodedTwoPadded(s);
      } else if OnePadded(s) {
        EncodedOnePadded(s);
      } else {
        FullGroupFirst(s);
        EncodedCanonical(s[4..]);
        EncodedGroup(s);
      }
    }
  }

  lemma {:induction false} EncodedIsCanonical(x: bytes)
    ensures Canonical(Encoded(x))
    decreases |x|
  {
    hide IndexOf, Quad, Bits;
    var s := Encoded(x);
    NoPadding();
    if |x| == 0 {
    } else if |x| == 1 {
      var n := Bits(x + ['\0', '\0']);
      QuadIndices(n);
      BitsBytes(x + ['\0', '\0']);
      SixteenZeroBits(n, x[0] as int);
    } else if |x| == 2 {
      var n := Bits(x + ['\0']);
      QuadIndices(n);
      BitsBytes(x + ['\0']);
      EightZeroBits(n, 0x100 * x[0] as int + x[1] as int);
    } else {
      QuadIndices(Bits(x[..3]));
      EncodedIsCanonical(x[3..]);
      assert s[4..] == Encoded(x[3..]);
    }
  }

  /** Encoding undoes decoding exactly on the canonical texts. */
  lemma EncodeDecode(s: string)
    ensures Encoded(Decoded(s)) == s <==> Canonical(s)
  {
    if Canonical(s) {
      EncodedCanonical(s);
    } else {
      EncodedIsCanonical(Decoded(s));
    }
  }

  // ------------------------------------------------------- what an encoded text denotes

  /** The number whose digits in base 256 are the bytes, after the digits of `acc`. */
  function NumberOfBytes(acc: nat, x: bytes): nat
    decreases |x|
  {
    if x == [] then acc else NumberOfBytes(acc * 256 + x[0] as int, x[1..])
  }

  /** The number whose digits in base 64 are the characters up to the padding, after the digits of `acc`. */
  function NumberOfText(acc: nat, s: string): nat
    decreases |s|
  {
    if s == [] || IndexOf(s[0]) == -1 then acc else NumberOfText(acc * 64 + IndexOf(s[0]), s[1..])
  }

  lemma BytesFold(acc: nat, x: bytes)
    ensures |x| == 1 ==> NumberOfBytes(acc, x) == acc * 256 + x[0] as int
    ensures |x| == 2 ==> NumberOfBytes(acc, x) == acc * 0x1_0000 + x[0] as int * 256 + x[1] as int
    ensures |x| >= 3 ==> NumberOfBytes(acc, x) == NumberOfBytes(acc * 0x100_0000 + Bits(x[..3]), x[3..])
  {
    if |x| >= 1 {
      assert NumberOfBytes(acc, x) == NumberOfBytes(acc * 256 + x[0] as int, x[1..]);
    }
    if |x| >= 2 {
      var acc2 := acc * 0x1_0000 + x[0] as int * 256 + x[1] as int;
      assert x[1..][1..] == x[2..];
      assert NumberOfBytes(acc * 256 + x[0] as int, x[1..]) == NumberOfBytes(acc2, x[2..]);
      if |x| >= 3 {
        assert x[2..][1..] == x[3..];
        assert NumberOfBytes(acc2, x[2..]) == NumberOfBytes(acc2 * 256 + x[2] as int, x[3..]);
      }
    }
  }

  /** The number of the first `k` characters of the group of `n`. */
  function Top(n: nat, k: nat): nat
    requires k <= 4
  {
    if k == 0 then 0 else if k == 1 then n / 0x4_0000 else if k == 2 then n / 0x1000 else if k == 3 then n / 64 else n
  }

  function Shift(k: nat): nat
    requires k <= 4
  {
    if k == 0 then 1 else if k == 1 then 64 else if k == 2 then 0x1000 else if k == 3 then 0x4_0000 else 0x100_0000
  }

  lemma TopGrows(acc: nat, n: nat, k: nat)
    requires n < 0x100_0000 && k < 4
    ensures Top(n, k + 1) == Top(n, k) * 64 + IndexOf(Quad(n)[k])
    ensures (acc * Shift(k) + Top(n, k)) * 64 + IndexOf(Quad(n)[k]) == acc * Shift(k + 1) + Top(n, k + 1)
  {
    QuadIndices(n);
    hide IndexOf, Quad;
    Div64(n);
    var a, b := n / 64, n / 0x1000;
    assert n == 64 * a + n % 64 && a == 64 * (a / 64) + a % 64 && b == 64 * (b / 64) + b % 64;
  }

  /** Reading `k` characters of a text that starts with an encoded group. */
  lemma {:induction false} TextFolds(acc: nat, n: nat, s: string, k: nat)
    requires n < 0x100_0000 && k <= 4 && k <= |s| && s[..k] == Quad(n)[..k]
    ensures NumberOfText(acc, s) == NumberOfText(acc * Shift(k) + Top(n, k), s[k..])
    decreases k
  {
    hide Quad, IndexOf, Top, Shift;
    if k == 0 {
      TopOfNothing(n);
      assert s[0..] == s;
    } else {
      assert s[..k - 1] == s[..k][..k - 1] && Quad(n)[..k - 1] == Quad(n)[..k][..k - 1];
      TextFolds(acc, n, s, k - 1);
      assert s[k - 1] == s[..k][k - 1] == Quad(n)[k - 1] && s[k - 1..][1..] == s[k..];
      QuadIndices(n);
      TopGrows(acc, n, k - 1);
    }
  }

  lemma TopOfNothing(n: nat)
    ensures Top(n, 0) == 0 && Shift(0) == 1
  {
  }

  lemma LastOneDenotes(acc: nat, x: bytes)
    requires |x| == 1
    ensures NumberOfText(acc, Encoded(x)) == NumberOfBytes(acc, x) * 16
  {
    hide IndexOf, Quad, Bits, NumberOfBytes;
    var n := x[0] as int * 0x1_0000;
    NoPadding();
    BytesFold(acc, x);
    LastOne(x, n);
    TextFolds(acc, n, Encoded(x), 2);
    assert n / 0x1000 == 16 * x[0] as int;
  }

  lemma LastTwoDenotes(acc: nat, x: bytes)
    requires |x| == 2
    ensures NumberOfText(acc, Encoded(x)) == NumberOfBytes(acc, x) * 4
  {
    hide IndexOf, Quad, Bits, NumberOfBytes;
    var n := x[0] as int * 0x1_0000 + x[1] as int * 0x100;
    NoPadding();
    BytesFold(acc, x);
    LastTwo(x, n);
    TextFolds(acc, n, Encoded(x), 3);
    assert n / 64 == 4 * (x[0] as int * 256 + x[1] as int);
  }

  function PaddingFactor(n: nat): nat {
    if n % 3 == 0 then 1 else if n % 3 == 1 then 16 else 4
  }

  /** What section 4 of RFC 4648 means: the characters are the digits in base 64 of the number that the bytes
      are the digits of in base 256, with 0, 4 or 2 zero bits added for the padding. */
  lemma {:induction false} EncodedDenotesTheSameNumber(acc: nat, x: bytes)
    ensures NumberOfText(acc, Encoded(x)) == NumberOfBytes(acc, x) * PaddingFactor(|x|)
    decreases |x|
  {
    hide IndexOf, Quad, Bits, NumberOfBytes, NumberOfText, Encoded, PaddingFactor;
    PaddingFactors(|x|);
    if |x| == 0 {
      NothingDenoted(acc, x);
    } else if |x| == 1 {
      LastOneDenotes(acc, x);
    } else if |x| == 2 {
      LastTwoDenotes(acc, x);
    } else {
      BytesFold(acc, x);
      EncodedUnfolds(x);
      var n := Bits(x[..3]);
      GroupAndRest(n, Encoded(x[3..]));
      TextFolds(acc, n, Encoded(x), 4);
      TopOfGroup(n);
      EncodedDenotesTheSameNumber(acc * 0x100_0000 + n, x[3..]);
    }
  }

  lemma PaddingFactors(n: nat)
    ensures n == 0 ==> PaddingFactor(n) == 1
    ensures n == 1 ==> PaddingFactor(n) == 16
    ensures n == 2 ==> PaddingFactor(n) == 4
    ensures n >= 3 ==> PaddingFactor(n - 3) == PaddingFactor(n)
  {
  }

  lemma GroupAndRest(n: int, rest: bytes)
    requires 0 <= n < 0x100_0000
    ensures |Quad(n) + rest| >= 4 && (Quad(n) + rest)[..4] == Quad(n)[..4] && (Quad(n) + rest)[4..] == rest
  {
    hide CharOf;
  }

  lemma TopOfGroup(n: nat)
    ensures Top(n, 4) == n && Shift(4) == 0x100_0000
  {
  }

  lemma NothingDenoted(acc: nat, x: bytes)
    requires |x| == 0
    ensures NumberOfBytes(acc, x) == NumberOfText(acc, Encoded(x)) == acc
  {
  }

  // --------------------------------------------------------------------- the loops

  lemma EncodedSuffix(x: bytes, first: nat)
    requires first + 3 <= |x|
    ensures Encoded(x[first..]) == Quad(Bits(x[first..first + 3])) + Encoded(x[first + 3..])
  {
    EncodedUnfolds(x[first..]);
    hide Encoded, Quad, Bits;
    assert x[first..][..3] == x[first..first + 3] && x[first..][3..] == x[first + 3..];
  }

  lemma EncodedUnfolds(x: bytes)
    requires |x| >= 3
    ensures Encoded(x) == Quad(Bits(x[..3])) + Encoded(x[3..])
  {
    hide Quad, Bits;
  }

  function Padding(n: nat): (s: bytes)
    ensures |s| == n
  {
    seq(n, i => '=')
  }

  lemma PaddingIs()
    ensures Padding(0) == [] && Padding(1) == ['='] && Padding(2) == ['=', '=']
  {
  }

  lemma GroupText(q: bytes, k: nat)
    requires |q| == 4 && 2 <= k <= 4
    ensures q[..k] + Padding(4 - k) == [q[0], q[1], if k > 2 then q[2] else '=', if k > 3 then q[3] else '=']
  {
  }

  /** One group through the pointer: `k` characters of the number, then padding. */
  method PutGroup(res: array<byte>, p: nat, n: int, k: nat)
    requires p + 4 <= res.Length && 0 <= n < 0x100_0000 && 2 <= k <= 4
    modifies res
    ensures res[..p + 4] == old(res[..p]) + (Quad(n)[..k] + Padding(4 - k))
  {
    GroupText(Quad(n), k);
    hide CharOf;
    res[p] := CharOf(n / 0x4_0000);
    res[p + 1] := CharOf(n / 0x1000 % 64);
    res[p + 2] := if k > 2 then CharOf(n / 64 % 64) else '=';
    res[p + 3] := if k > 3 then CharOf(n % 64) else '=';
    assert res[p..p + 4] == [res[p], res[p + 1], res[p + 2], res[p + 3]];
    hide Padding;
    assert res[..p + 4] == res[..p] + res[p..p + 4];
  }

  /** The pre-sized text: four characters for each group, full or not. */
  lemma SizeInGroups(len: nat)
    ensures len == 3 * (len / 3) + len % 3
    ensures (len + 2) / 3 * 4 == 4 * (len / 3) + if len % 3 == 0 then 0 else 4
  {
  }

  /** `encode`, writing a pre-sized text through a pointer. */
  method Encode(x: bytes) returns (text: bytes)
    ensures text == Encoded(x)
  {
    hide Encoded, Quad, Bits, Padding;
    var len := |x|;
    if len == 0 {
      NothingCoded();
      assert x == [];
      return [];
    }
    var r := len % 3;
    SizeInGroups(len);
    var res := new byte[(len + 2) / 3 * 4];
    var last := len - r;
    var first, p := 0, 0;
    ghost var groups := 0;
    assert x[0..] == x && res[..0] == [];
    while first != last
      invariant groups <= len / 3 && first == 3 * groups && p == 4 * groups
      invariant Encoded(x) == res[..p] + Encoded(x[first..])
    {
      ghost var done, rest := res[..p], Encoded(x[first + 3..]);
      EncodedSuffix(x, first);
      var n := x[first] as int * 0x1_0000;
      n := n + x[first + 1] as int * 0x100;
      n := n + x[first + 2] as int;
      BitsAre(x[first..first + 3], n);
      PutGroup(res, p, n, 4);
      WholeGroup(n);
      Associative(done, Quad(n), rest);
      first, p, groups := first + 3, p + 4, groups + 1;
    }
    text := PutTail(x[first..], res, p);
  }

  lemma WholeGroup(n: int)
    requires 0 <= n < 0x100_0000
    ensures Quad(n)[..4] + Padding(0) == Quad(n)
  {
  }

  /** The last one or two bytes, if any, and the whole text. */
  method PutTail(tail: bytes, res: array<byte>, p: nat) returns (text: bytes)
    requires |tail| < 3 && res.Length == p + if tail == [] then 0 else 4
    modifies res
    ensures text == old(res[..p]) + Encoded(tail)
  {
    hide Encoded, Quad, Padding;
    ghost var done := res[..p];
    PaddingIs();
    if |tail| == 2 {
      var n := tail[0] as int * 0x1_0000;
      n := n + tail[1] as int * 0x100;
      LastTwo(tail, n);
      PutGroup(res, p, n, 3);
    } else if |tail| == 1 {
      var n := tail[0] as int * 0x1_0000;
      LastOne(tail, n);
      PutGroup(res, p, n, 2);
    } else {
      NothingCoded();
      assert tail == [] && done + [] == done;
    }
    text := res[..];
    assert res[..] == res[..res.Length];
  }

  lemma BitsAre(x: bytes, n: int)
    requires |x| == 3 && n == x[0] as int * 0x1_0000 + x[1] as int * 0x100 + x[2] as int
    ensures Bits(x) == n
  {
  }

  lemma LastTwo(tail: bytes, n: int)
    requires |tail| == 2 && n == tail[0] as int * 0x1_0000 + tail[1] as int * 0x100
    ensures 0 <= n < 0x100_0000
    ensures Encoded(tail) == Quad(n)[..3] + ['=']
  {
    BitsAre(tail + ['\0'], n);
  }

  lemma LastOne(tail: bytes, n: int)
    requires |tail| == 1 && n == tail[0] as int * 0x1_0000
    ensures 0 <= n < 0x100_0000
    ensures Encoded(tail) == Quad(n)[..2] + ['=', '=']
  {
    BitsAre(tail + ['\0', '\0'], n);
  }

  function Prefixed(done: bytes, d: Option<bytes>): Option<bytes> {
    match d
    case None => None
    case Some(x) => Some(done + x)
  }

  /** What decoding comes to at the first character of a group that is not in the alphabet. */
  lemma DecodingStops(group: string, k: nat)
    requires |group| % 4 == 0 && k < 4 <= |group|
    requires IndexOf(group[k]) == -1 && forall j :: 0 <= j < k ==> IndexOf(group[j]) != -1
    ensures Decoding(group)
         == if k == 2 && group[2] == '=' && group[3] == '=' && |group| == 4 then Some([Byte0(Sum(group, 2))])
            else if k == 3 && group[3] == '=' && |group| == 4 then Some([Byte0(Sum(group, 3)), Byte1(Sum(group, 3))])
            else None
  {
    hide IndexOf, Sum, Byte0, Byte1;
  }

  lemma DecodingGoesOn(group: string)
    requires |group| % 4 == 0 && 4 <= |group| && forall j :: 0 <= j < 4 ==> IndexOf(group[j]) != -1
    ensures var n := Sum(group, 4);
            Decoding(group) == Prefixed([Byte0(n), Byte1(n), Byte2(n)], Decoding(group[4..]))
  {
    hide IndexOf, Sum, Byte0, Byte1, Byte2;
  }

  // ----------------------------------------------------------- where the table is read

  /** `static_cast<size_t>` of a character: a negative `char` becomes a large number. */
  function TableIndex(c: byte, charIsSigned: bool): nat {
    if charIsSigned && c as int >= 128 then 0x1_0000_0000_0000_0000 - 256 + c as int else c as int
  }

  const TableSize: nat := 256

  /** The first character that is not in the alphabet. */
  function FirstOutside(s: string): (k: nat)
    ensures k <= |s| && forall j :: 0 <= j < k ==> IndexOf(s[j]) != -1
    ensures k < |s| ==> IndexOf(s[k]) == -1
  {
    if s == [] || IndexOf(s[0]) == -1 then 0 else 1 + FirstOutside(s[1..])
  }

  /** The characters that `decode` looks up: up to the first one that is not in the alphabet, which ends it. */
  function LookedUp(s: bytes): bytes {
    if |s| % 4 != 0 then [] else s[..if FirstOutside(s) < |s| then FirstOutside(s) + 1 else |s|]
  }

  /** Some lookup reads outside the table. */
  ghost predicate LeavesTable(s: bytes, charIsSigned: bool) {
    exists c :: c in LookedUp(s) && TableIndex(c, charIsSigned) >= TableSize
  }

  lemma AlphabetIsInTable(c: byte, charIsSigned: bool)
    requires IndexOf(c) != -1
    ensures TableIndex(c, charIsSigned) < TableSize
  {
  }

  lemma StopsAt(s: bytes, k: nat, charIsSigned: bool)
    requires |s| % 4 == 0 && k < |s| && IndexOf(s[k]) == -1
    requires forall j :: 0 <= j < k ==> IndexOf(s[j]) != -1
    ensures FirstOutside(s) == k && LookedUp(s) == s[..k + 1]
    ensures LeavesTable(s, charIsSigned) <==> TableIndex(s[k], charIsSigned) >= TableSize
  {
    hide IndexOf, TableIndex;
    assert s[..k + 1] == s[..k] + [s[k]];
    forall j | 0 <= j < k ensures TableIndex(s[j], charIsSigned) < TableSize {
      AlphabetIsInTable(s[j], charIsSigned);
    }
  }

  lemma NeverStops(s: bytes, charIsSigned: bool)
    requires |s| % 4 == 0 && forall j :: 0 <= j < |s| ==> IndexOf(s[j]) != -1
    ensures LookedUp(s) == s && !LeavesTable(s, charIsSigned)
  {
    hide IndexOf, TableIndex;
    forall j | 0 <= j < |s| ensures TableIndex(s[j], charIsSigned) < TableSize {
      AlphabetIsInTable(s[j], charIsSigned);
    }
  }

  /** Where `char` is signed, `decode` reads outside its table if and only if the length is right and the first
      character outside the alphabet is 128 or more; where it is unsigned, never. */
  lemma TableIsLeftExactlyWhen(s: bytes)
    ensures LeavesTable(s, true) <==> |s| % 4 == 0 && FirstOutside(s) < |s| && s[FirstOutside(s)] as int >= 128
    ensures !LeavesTable(s, false)
  {
    var k := FirstOutside(s);
    if |s| % 4 == 0 && k < |s| {
      StopsAt(s, k, true);
    } else if |s| % 4 == 0 {
      NeverStops(s, true);
    }
  }

  /** The smallest input of the failing kind, which an unsigned `char` reports as malformed. */
  lemma HighBytesLeaveTheTable(s: bytes)
    requires |s| == 4 && s[0] as int == 255
    ensures LeavesTable(s, true) && !LeavesTable(s, false) && Decoding(s) == None
  {
    TableIsLeftExactlyWhen(s);
  }

  /** No text that is accepted makes `decode` leave its table, and so none that `encode` makes. */
  lemma {:induction false} AcceptedStaysInTable(s: bytes, charIsSigned: bool)
    requires Decoding(s).Some?
    ensures !LeavesTable(s, charIsSigned)
  {
    hide Decoding, IndexOf, LeavesTable, LookedUp;
    SomeIsWhole(s);
    var k := FirstOutside(s);
    if k < |s| {
      AcceptedStopsAtPadding(s, k);
      StopsAt(s, k, charIsSigned);
    } else {
      NeverStops(s, charIsSigned);
    }
  }

  lemma {:induction false} AcceptedStopsAtPadding(s: string, k: nat)
    requires Decoding(s).Some? && k < |s| && IndexOf(s[k]) == -1
    requires forall j :: 0 <= j < k ==> IndexOf(s[j]) != -1
    ensures s[k] == '='
    decreases |s|
  {
    SomeIsWhole(s);
    hide IndexOf, Decoding;
    if k < 4 {
      DecodingStops(s, k);
    } else {
      DecodingGoesOn(s);
      AcceptedStopsAtPadding(s[4..], k - 4);
    }
  }

  /** What a call of `decode` comes to: a text, or behaviour that C++ leaves undefined. */
  datatype Outcome = Undefined | Returned(text: bytes)

  /** `decode`, writing a pre-sized text through a pointer and cutting it at the padding. */
  method Decode(s: bytes, charIsSigned: bool) returns (r: Outcome, ghost looked: bytes)
    ensures r == if LeavesTable(s, charIsSigned) then Undefined else Returned(Decoded(s))
    ensures looked == LookedUp(s)
  {
    hide Decoding, IndexOf, Sum, Byte0, Byte1, Byte2, LeavesTable, LookedUp, FirstOutside, TableIndex;
    looked := [];
    if |s| % 4 != 0 {
      WrongLength(s, charIsSigned);
      return Returned([]), [];
    }
    ghost var total := |s| / 4;
    assert |s| == 4 * total;
    var res := new byte[|s| / 4 * 3];
    var first, p := 0, 0;
    ghost var groups := 0;
    assert s[0..] == s;
    NothingBefore(Decoding(s));
    while first != |s|
      invariant groups <= total && first == 4 * groups && p == 3 * groups
      invariant Decoding(s) == Prefixed(res[..p], Decoding(s[first..]))
      invariant looked == s[..first] && forall j :: 0 <= j < first ==> IndexOf(s[j]) != -1
      decreases |s| - first
    {
      ghost var group := s[first..];
      var stop, n, outside;
      ghost var more;
      stop, n, outside, more := ReadGroup(s, first, charIsSigned);
      SlicesJoin(s, first, first + if stop < 4 then stop + 1 else 4);
      looked := looked + more;
      AlphabetBefore(s, first, stop);
      WholeGroups(group, total - groups);
      if stop < 4 {
        StopsAt(s, first + stop, charIsSigned);
        if outside {
          return Undefined, looked;
        }
        var text := DecodeLast(s, first, stop, n, res, p);
        return Returned(text), looked;
      }
      GroupDecoded(s, first, res[..p], n);
      PutBytes(res, p, n);
      first, p, groups := first + 4, p + 3, groups + 1;
    }
    assert s[first..] == [];
    NothingCoded();
    NeverStops(s, charIsSigned);
    assert res[..p] == res[..] && res[..] + [] == res[..];
    r := Returned(res[..]);
  }

  lemma GroupDecoded(s: string, first: nat, done: bytes, n: int)
    requires first + 4 <= |s| && |s[first..]| % 4 == 0 && forall j :: 0 <= j < 4 ==> IndexOf(s[first..][j]) != -1
    requires n == Sum(s[first..], 4)
    ensures Prefixed(done, Decoding(s[first..]))
         == Prefixed(done + [Byte0(n), Byte1(n), Byte2(n)], Decoding(s[first + 4..]))
  {
    hide IndexOf, Sum, Byte0, Byte1, Byte2, Decoding;
    DecodingGoesOn(s[first..]);
    assert s[first..][4..] == s[first + 4..];
    PrefixedTwice(done, [Byte0(n), Byte1(n), Byte2(n)], Decoding(s[first + 4..]));
  }

  lemma WholeGroups(group: bytes, k: nat)
    requires |group| == 4 * k
    ensures |group| % 4 == 0
  {
  }

  /** The end of a text whose last group stops short, at its padding or at a malformed character. */
  method DecodeLast(s: string, first: nat, stop: nat, n: int, res: array<byte>, p: nat) returns (text: bytes)
    requires first + 4 <= |s| && |s[first..]| % 4 == 0 && stop < 4 && p + 3 <= res.Length
    requires IndexOf(s[first..][stop]) == -1 && forall j :: 0 <= j < stop ==> IndexOf(s[first..][j]) != -1
    requires n == Sum(s[first..], stop)
    modifies res
    ensures text == match Decoding(s[first..])
                    case None => []
                    case Some(x) => old(res[..p]) + x
  {
    hide Decoding, IndexOf, Sum, Byte0, Byte1;
    DecodingStops(s[first..], stop);
    if stop == 2 && s[first + 2] == '=' && s[first + 3] == '=' && first + 4 == |s| {
      res[p] := Byte0(n);
      return res[..p + 1];
    }
    if stop == 3 && s[first + 3] == '=' && first + 4 == |s| {
      res[p] := Byte0(n);
      res[p + 1] := Byte1(n);
      return res[..p + 2];
    }
    return [];
  }

  method PutBytes(res: array<byte>, p: nat, n: int)
    requires p + 3 <= res.Length && 0 <= n < 0x100_0000
    modifies res
    ensures res[..p + 3] == old(res[..p]) + [Byte0(n), Byte1(n), Byte2(n)]
  {
    res[p] := Byte0(n);
    res[p + 1] := Byte1(n);
    res[p + 2] := Byte2(n);
  }

  /** The inner loop: adds up a group until a character is not in the alphabet, or not even in the table. */
  method ReadGroup(s: bytes, first: nat, charIsSigned: bool)
    returns (k: nat, n: int, outside: bool, ghost looked: bytes)
    requires first + 4 <= |s|
    ensures k <= 4 && forall j :: 0 <= j < k ==> IndexOf(s[first + j]) != -1 && s[first..][j] == s[first + j]
    ensures n == Sum(s[first..], k)
    ensures k < 4 ==> IndexOf(s[first + k]) == -1 && s[first..][k] == s[first + k]
    ensures outside <==> k < 4 && TableIndex(s[first + k], charIsSigned) >= TableSize
    ensures looked == s[first..first + if k < 4 then k + 1 else 4]
  {
    hide IndexOf, TableIndex;
    n, looked := 0, [];
    for i := 1 to 5
      invariant forall j :: 0 <= j < i - 1 ==> IndexOf(s[first + j]) != -1 && s[first..][j] == s[first + j]
      invariant n == Sum(s[first..], i - 1)
      invariant looked == s[first..first + i - 1]
    {
      var c := s[first + i - 1];
      SliceGrows(s, first, first + i - 1);
      looked := looked + [c];
      if TableIndex(c, charIsSigned) >= TableSize {
        OutsideTable(c, charIsSigned);
        return i - 1, n, true, looked;
      }
      var idx := IndexOf(c);
      if idx == -1 {
        return i - 1, n, false, looked;
      }
      n := n + idx * Weight(i);
    }
    k, outside := 4, false;
  }

  lemma SliceGrows(s: bytes, i: nat, j: nat)
    requires i <= j < |s|
    ensures s[i..j] + [s[j]] == s[i..j + 1]
  {
  }

  lemma SlicesJoin(s: bytes, i: nat, j: nat)
    requires i <= j <= |s|
    ensures s[..i] + s[i..j] == s[..j]
  {
  }

  lemma AlphabetBefore(s: bytes, first: nat, k: nat)
    requires first + k <= |s| && forall j :: 0 <= j < first ==> IndexOf(s[j]) != -1
    requires forall j :: 0 <= j < k ==> IndexOf(s[first..][j]) != -1
    ensures forall j :: 0 <= j < first + k ==> IndexOf(s[j]) != -1
  {
    hide IndexOf;
    forall j | 0 <= j < first + k ensures IndexOf(s[j]) != -1 {
      if j >= first {
        assert s[j] == s[first..][j - first];
      }
    }
  }

  lemma OutsideTable(c: byte, charIsSigned: bool)
    requires TableIndex(c, charIsSigned) >= TableSize
    ensures IndexOf(c) == -1
  {
  }

  lemma WrongLength(s: bytes, charIsSigned: bool)
    requires |s| % 4 != 0
    ensures Decoding(s) == None && LookedUp(s) == [] && !LeavesTable(s, charIsSigned)
  {
  }

  lemma NothingBefore(d: Option<bytes>)
    ensures Prefixed([], d) == d
  {
    assert d.Some? ==> [] + d.value == d.value;
  }

  lemma PrefixedTwice(a: bytes, b: bytes, d: Option<bytes>)
    ensures Prefixed(a, Prefixed(b, d)) == Prefixed(a + b, d)
  {
    if d.Some? {
      Associative(a, b, d.value);
    }
  }

  // ------------------------------------------------- which texts are accepted, and as what

  /** Whole groups of the alphabet, but for one or two padding characters at the end. */
  predicate WellPadded(s: string) {
    && |s| % 4 == 0 && |s| - FirstOutside(s) <= 2
    && forall j :: FirstOutside(s) <= j < |s| ==> s[j] == '='
  }

  lemma {:induction false} AcceptedFrom(s: string, k: nat)
    requires |s| % 4 == 0 && k <= |s| && (k < |s| ==> IndexOf(s[k]) == -1)
    requires forall j :: 0 <= j < k ==> IndexOf(s[j]) != -1
    ensures Decoding(s).Some? <==> |s| - k <= 2 && forall j :: k <= j < |s| ==> s[j] == '='
    decreases |s|
  {
    hide IndexOf, Decoding;
    if s == [] {
      NothingCoded();
    } else if k < 4 {
      DecodingStops(s, k);
    } else {
      DecodingGoesOn(s);
      ShorterByFour(s);
      AcceptedFrom(s[4..], k - 4);
      assert forall j :: k - 4 <= j < |s| - 4 ==> s[4..][j] == s[j + 4];
      assert forall j :: k <= j < |s| ==> s[j] == s[4..][j - 4];
    }
  }

  lemma ShorterByFour(s: string)
    requires |s| % 4 == 0 && |s| >= 4
    ensures |s[4..]| % 4 == 0
  {
  }

  lemma {:induction false} DecodedLengthFrom(s: string, k: nat)
    requires Decoding(s).Some? && k <= |s| && (k < |s| ==> IndexOf(s[k]) == -1)
    requires forall j :: 0 <= j < k ==> IndexOf(s[j]) != -1
    ensures 4 * |Decoding(s).value| == 4 * k - |s|
    decreases |s|
  {
    hide IndexOf, Decoding;
    SomeIsWhole(s);
    if s == [] {
      NothingCoded();
    } else if k < 4 {
      DecodingStops(s, k);
    } else {
      DecodingGoesOn(s);
      DecodedLengthFrom(s[4..], k - 4);
    }
  }

  /** Three bytes for every group of four characters, less one for every padding character. */
  lemma DecodedLength(s: string)
    requires Decoding(s).Some?
    ensures 4 * |Decoding(s).value| == 4 * FirstOutside(s) - |s|
  {
    hide IndexOf, Decoding;
    DecodedLengthFrom(s, FirstOutside(s));
  }

  /** A text is accepted if and only if it is made of whole groups with at most two padding characters, whatever the
      padding bits. */
  lemma AcceptedExactlyWhen(s: string)
    ensures Decoding(s).Some? <==> WellPadded(s)
  {
    hide IndexOf, Decoding;
    if |s| % 4 == 0 {
      AcceptedFrom(s, FirstOutside(s));
    } else {
      OddLength(s);
    }
  }

  lemma OddLength(s: string)
    requires |s| % 4 != 0
    ensures Decoding(s) == None
  {
  }

  lemma DropFourBits(acc: nat, n: nat)
    requires n < 0x100_0000
    ensures (acc * 0x1000 + n / 0x1000) / 16 == acc * 256 + n / 0x1_0000
  {
    var q, r := n / 0x1000, n / 0x1_0000;
    assert n == 0x1000 * q + n % 0x1000 && n == 0x1_0000 * r + n % 0x1_0000;
    assert 16 * r <= q < 16 * r + 16;
    assert acc * 0x1000 + q == 16 * (acc * 256 + r) + (q - 16 * r);
  }

  lemma DropTwoBits(acc: nat, n: nat)
    requires n < 0x100_0000
    ensures (acc * 0x4_0000 + n / 64) / 4 == acc * 0x1_0000 + n / 0x1_0000 * 256 + n / 0x100 % 0x100
  {
    var q, r := n / 64, n / 0x100;
    assert n == 64 * q + n % 64 && n == 0x100 * r + n % 0x100;
    assert 4 * r <= q < 4 * r + 4;
    BytesOf(n);
    assert r == n / 0x1_0000 * 256 + n / 0x100 % 0x100;
    assert acc * 0x4_0000 + q == 4 * (acc * 0x1_0000 + r) + (q - 4 * r);
  }

  lemma PaddedTextIsRead(acc: nat, s: string)
    requires s != [] && s[0] == '='
    ensures NumberOfText(acc, s) == acc
  {
    NoPadding();
  }

  lemma TopAndShift(n: nat)
    ensures Top(n, 2) == n / 0x1000 && Shift(2) == 0x1000 && Top(n, 3) == n / 64 && Shift(3) == 0x4_0000
  {
  }

  lemma StoppedDenotes(acc: nat, s: string, k: nat)
    requires 2 <= k <= 3 && |s| == 4 && IndexOf(s[k]) == -1 && Decoding(s).Some?
    requires forall j :: 0 <= j < k ==> IndexOf(s[j]) != -1
    ensures var x := Decoding(s).value;
            |x| == k - 1 && NumberOfBytes(acc, x) == NumberOfText(acc, s) / PaddingFactor(|x|)
  {
    hide IndexOf, Decoding, Sum, Quad, Top, Shift, NumberOfText, NumberOfBytes;
    var n := Sum(s, k);
    DecodingStops(s, k);
    QuadOfSum(s, k);
    TextFolds(acc, n, s, k);
    TopAndShift(n);
    PaddedTextIsRead(acc * Shift(k) + Top(n, k), s[k..]);
    BytesFold(acc, Decoding(s).value);
    if k == 2 {
      DropFourBits(acc, n);
    } else {
      DropTwoBits(acc, n);
    }
  }

  lemma ThreeAndRest(acc: nat, n: int, rest: bytes)
    requires 0 <= n < 0x100_0000
    ensures NumberOfBytes(acc, [Byte0(n), Byte1(n), Byte2(n)] + rest) == NumberOfBytes(acc * 0x100_0000 + n, rest)
  {
    hide Bits, Byte0, Byte1, Byte2, NumberOfBytes;
    var three := [Byte0(n), Byte1(n), Byte2(n)];
    BitsOfBytes(n);
    BytesFold(acc, three + rest);
    assert (three + rest)[..3] == three && (three + rest)[3..] == rest;
  }

  /** What an accepted text is decoded to: the bytes whose number is that of the characters, less the padding bits. */
  lemma {:induction false} DecodedDenotesTheSameNumber(acc: nat, s: string)
    requires Decoding(s).Some?
    ensures var x := Decoding(s).value;
            NumberOfBytes(acc, x) == NumberOfText(acc, s) / PaddingFactor(|x|)
    decreases |s|
  {
    hide IndexOf, Decoding, Sum, Quad, NumberOfText, NumberOfBytes, Byte0, Byte1, Byte2, PaddingFactor;
    SomeIsWhole(s);
    if s == [] {
      NothingCoded();
      NothingDenotedBack(acc);
    } else {
      var k := FirstOutside(s);
      hide FirstOutside;
      if k < 4 {
        DecodingStops(s, k);
        StoppedDenotes(acc, s, k);
      } else {
        var n := Sum(s, 4);
        DecodingGoesOn(s);
        QuadOfSum(s, 4);
        TextFolds(acc, n, s, 4);
        TopOfGroup(n);
        var rest := Decoding(s[4..]).value;
        ThreeAndRest(acc, n, rest);
        PaddingFactors(|rest| + 3);
        DecodedDenotesTheSameNumber(acc * 0x100_0000 + n, s[4..]);
      }
    }
  }

  lemma NothingDenotedBack(acc: nat)
    ensures NumberOfBytes(acc, []) == NumberOfText(acc, []) == acc && PaddingFactor(0) == 1
  {
  }
}
