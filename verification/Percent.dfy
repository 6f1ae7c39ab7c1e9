/** Percent-encoding of byte strings and its decoding. */
module Percent {
  import Common
  import opened Text

  /** RFC 3986, section 2.3. */
  predicate Unreserved(c: char) {
    'A' <= c <= 'Z' || 'a' <= c <= 'z' || '0' <= c <= '9' || c in "-._~"
  }

  /** `toupper` of the C locale. */
  function ToUpper(c: byte): byte {
    if 'a' <= c <= 'z' then (c as int - 32) as char else c
  }

  predicate IsHexDigit(c: char) {
    '0' <= c <= '9' || 'A' <= c <= 'F' || 'a' <= c <= 'f'
  }

  /** Section 2.1 of RFC 3986 asks producers for upper-case digits. */
  predicate IsUpperHexDigit(c: char) {
    '0' <= c <= '9' || 'A' <= c <= 'F'
  }

  function HexDigit(n: int): (c: byte)
    requires 0 <= n < 16
    ensures IsUpperHexDigit(c) && HexDigitToNum(c) == n
  {
    if n < 10 then (n + '0' as int) as char else (n - 10 + 'A' as int) as char
  }

  /** The `unsigned char` of `hexdigit_to_num`, on the digits it is called with. */
  function HexDigitToNum(c: char): (n: int)
    requires IsHexDigit(c)
    ensures 0 <= n < 16
  {
    if c < 'A' then c as int - '0' as int else ToUpper(c) as int - 'A' as int + 10
  }

  /** The value of a digit is its place in the list of digits, whichever its case. */
  lemma HexDigitValue(c: char)
    requires IsHexDigit(c)
    ensures "0123456789ABCDEF"[HexDigitToNum(c)] == ToUpper(c)
    ensures forall n :: 0 <= n < 16 && "0123456789ABCDEF"[n] == ToUpper(c) ==> n == HexDigitToNum(c)
  {
  }

  /** `c` as the three characters the escaping loop appends. */
  function Triplet(c: byte): bytes {
    var u := ToUpper(c) as int;
    ['%', HexDigit(u / 16), HexDigit(u % 16)]
  }

  function Escaped(s: bytes): bytes {
    if s == [] then []
    else (if Unreserved(s[0]) then [s[0]] else Triplet(s[0])) + Escaped(s[1..])
  }

  /** A match of the decoding pattern: a percent sign and two hexadecimal digits. */
  predicate TripletAt(t: string, i: nat) {
    i + 2 < |t| && t[i] == '%' && IsHexDigit(t[i + 1]) && IsHexDigit(t[i + 2])
  }

  function TripletValue(t: string, i: nat): byte
    requires TripletAt(t, i)
  {
    (HexDigitToNum(t[i + 1]) * 16 + HexDigitToNum(t[i + 2])) as char
  }

  function PlusToSpace(s: string): (t: string)
    ensures |t| == |s|
    ensures forall i :: 0 <= i < |s| ==> t[i] == if s[i] == '+' then ' ' else s[i]
  {
    if s == [] then [] else [if s[0] == '+' then ' ' else s[0]] + PlusToSpace(s[1..])
  }

  function DecodeTriplets(t: string): string
    decreases |t|
  {
    if t == [] then []
    else if TripletAt(t, 0) then [TripletValue(t, 0)] + DecodeTriplets(t[3..])
    else [t[0]] + DecodeTriplets(t[1..])
  }

  function Unescaped(s: string): string {
    DecodeTriplets(PlusToSpace(s))
  }

  // ---------------------------------------------------------------- the loops

  /** The first character at or after `from` that the pattern of `escape` matches. */
  function NextUnsafe(s: bytes, from: nat): (i: nat)
    requires from <= |s|
    ensures from <= i <= |s|
    ensures forall j :: from <= j < i ==> Unreserved(s[j])
    ensures i < |s| ==> !Unreserved(s[i])
    decreases |s| - from
  {
    if from == |s| || !Unreserved(s[from]) then from else NextUnsafe(s, from + 1)
  }

  /** The first match of the pattern of `unescape` at or after `from`. */
  function NextTriplet(t: string, from: nat): (i: nat)
    requires from <= |t|
    ensures from <= i <= |t|
    ensures forall j :: from <= j < i ==> !TripletAt(t, j)
    ensures i < |t| ==> TripletAt(t, i)
    decreases |t| - from
  {
    if from == |t| || TripletAt(t, from) then from else NextTriplet(t, from + 1)
  }

  lemma {:induction false} EscapedPassesOver(s: bytes, from: nat, end: nat)
    requires from <= end <= |s|
    requires forall j :: from <= j < end ==> Unreserved(s[j])
    ensures Escaped(s[from..]) == s[from..end] + Escaped(s[end..])
    decreases end - from
  {
    if from < end {
      assert s[from..][1..] == s[from + 1..];
      assert Escaped(s[from..]) == [s[from]] + Escaped(s[from + 1..]);
      hide Escaped;
      EscapedPassesOver(s, from + 1, end);
      assert s[from..end] == [s[from]] + s[from + 1..end];
      Common.Associative([s[from]], s[from + 1..end], Escaped(s[end..]));
    }
  }

  lemma {:induction false} DecodingPassesOver(t: string, from: nat, end: nat)
    requires from <= end <= |t|
    requires forall j :: from <= j < end ==> !TripletAt(t, j)
    ensures DecodeTriplets(t[from..]) == t[from..end] + DecodeTriplets(t[end..])
    decreases end - from
  {
    if from < end {
      assert TripletAt(t[from..], 0) == TripletAt(t, from);
      assert t[from..][1..] == t[from + 1..];
      assert DecodeTriplets(t[from..]) == [t[from]] + DecodeTriplets(t[from + 1..]);
      hide DecodeTriplets;
      DecodingPassesOver(t, from + 1, end);
      assert t[from..end] == [t[from]] + t[from + 1..end];
      Common.Associative([t[from]], t[from + 1..end], DecodeTriplets(t[end..]));
    }
  }

  lemma EscapedTail(s: bytes, from: nat)
    requires from <= |s| && NextUnsafe(s, from) == |s|
    ensures Escaped(s[from..]) == s[from..]
  {
    EscapedPassesOver(s, from, |s|);
  }

  lemma DecodedTail(t: string, from: nat)
    requires from <= |t| && NextTriplet(t, from) == |t|
    ensures DecodeTriplets(t[from..]) == t[from..]
  {
    DecodingPassesOver(t, from, |t|);
  }

  /** One pass of the escaping loop: the safe characters before the next unsafe one, and it. */
  lemma EscapeStep(s: bytes, vbegin: nat, cur: nat)
    requires vbegin <= cur < |s| && cur == NextUnsafe(s, vbegin)
    ensures Escaped(s[vbegin..]) == s[vbegin..cur] + (Triplet(s[cur]) + Escaped(s[cur + 1..]))
  {
    EscapedPassesOver(s, vbegin, cur);
    assert s[cur..][1..] == s[cur + 1..];
  }

  /** One pass of the decoding loop: the plain characters before the next match, and it. */
  lemma UnescapeStep(t: string, vbegin: nat, cur: nat)
    requires vbegin <= cur < |t| && cur == NextTriplet(t, vbegin)
    ensures DecodeTriplets(t[vbegin..])
         == t[vbegin..cur] + ([TripletValue(t, cur)] + DecodeTriplets(t[cur + 3..]))
  {
    DecodingPassesOver(t, vbegin, cur);
    TripletDecoded(t, cur);
    hide DecodeTriplets, TripletValue;
  }

  lemma TripletDecoded(t: string, cur: nat)
    requires TripletAt(t, cur)
    ensures DecodeTriplets(t[cur..]) == [TripletValue(t, cur)] + DecodeTriplets(t[cur + 3..])
  {
    hide HexDigitToNum, IsHexDigit;
    assert TripletAt(t[cur..], 0) && TripletValue(t[cur..], 0) == TripletValue(t, cur);
    assert t[cur..][3..] == t[cur + 3..];
  }

  method Escape(s: bytes) returns (escaped: bytes)
    ensures escaped == Escaped(s)
  {
    hide Escaped;
    escaped := [];
    var vbegin := 0;
    var cur := NextUnsafe(s, 0);
    ghost var rest := Escaped(s);
    assert s[0..] == s;
    while cur < |s|
      invariant 0 <= vbegin <= |s| && cur == NextUnsafe(s, vbegin)
      invariant rest == Escaped(s[vbegin..]) && Escaped(s) == escaped + rest
      decreases |s| - vbegin
    {
      EscapeStep(s, vbegin, cur);
      rest := Escaped(s[cur + 1..]);
      Common.Associative(escaped, s[vbegin..cur], Triplet(s[cur]) + rest);
      escaped := escaped + s[vbegin..cur];
      var c := ToUpper(s[cur]) as int;
      Common.Associative(escaped, Triplet(s[cur]), rest);
      escaped := escaped + ['%', HexDigit(c / 16), HexDigit(c % 16)];
      vbegin := cur + 1;
      cur := NextUnsafe(s, vbegin);
    }
    EscapedTail(s, vbegin);
    escaped := escaped + s[vbegin..];
  }

  method Unescape(s: string) returns (unescaped: string)
    ensures unescaped == Unescaped(s)
  {
    hide DecodeTriplets, PlusToSpace;
    var t := PlusToSpace(s);
    unescaped := [];
    var vbegin := 0;
    var cur := NextTriplet(t, 0);
    ghost var rest := DecodeTriplets(t);
    assert t[0..] == t;
    while cur < |t|
      invariant 0 <= vbegin <= |t| && cur == NextTriplet(t, vbegin)
      invariant rest == DecodeTriplets(t[vbegin..]) && DecodeTriplets(t) == unescaped + rest
      decreases |t| - vbegin
    {
      UnescapeStep(t, vbegin, cur);
      rest := DecodeTriplets(t[cur + 3..]);
      Common.Associative(unescaped, t[vbegin..cur], [TripletValue(t, cur)] + rest);
      unescaped := unescaped + t[vbegin..cur];
      var c := HexDigitToNum(t[cur + 1]) * 16;
      c := c + HexDigitToNum(t[cur + 2]);
      Common.Associative(unescaped, [TripletValue(t, cur)], rest);
      unescaped := unescaped + [c as char];
      vbegin := cur + 3;
      cur := NextTriplet(t, vbegin);
    }
    DecodedTail(t, vbegin);
    unescaped := unescaped + t[vbegin..];
  }

  // ----------------------------------------------------------- what they promise

  /** Two hexadecimal digits of either case that stand for `c`, the high one first. */
  predicate HexPair(hi: char, lo: char, c: char) {
    && IsHexDigit(hi) && IsHexDigit(lo) && c as int < 256
    && "0123456789ABCDEF"[c as int / 16] == ToUpper(hi) && "0123456789ABCDEF"[c as int % 16] == ToUpper(lo)
  }

  /** `e` spells `s`: every byte as itself, as a plus sign when it is a blank, or as a percent sign and its two
      hexadecimal digits in either case. A percent sign without two digits behind it spells itself. */
  ghost predicate Spells(e: string, s: string) {
    if s == [] then e == []
    else e != [] &&
         ( || (e[0] == s[0] && s[0] !in "%+" && Spells(e[1..], s[1..]))
           || (e[0] == '+' && s[0] == ' ' && Spells(e[1..], s[1..]))
           || (|e| >= 3 && e[0] == '%' && HexPair(e[1], e[2], s[0]) && Spells(e[3..], s[1..]))
           || (e[0] == '%' && s[0] == '%' && !TripletAt(e, 0) && Spells(e[1..], s[1..])))
  }

  lemma TripletIsPair(t: string, c: char)
    requires TripletAt(t, 0)
    ensures HexPair(t[1], t[2], c) <==> TripletValue(t, 0) == c
  {
    HexDigitValue(t[1]);
    HexDigitValue(t[2]);
    var n := HexDigitToNum(t[1]) * 16 + HexDigitToNum(t[2]);
    assert n / 16 == HexDigitToNum(t[1]) && n % 16 == HexDigitToNum(t[2]);
    hide HexDigitToNum, IsHexDigit, ToUpper;
  }

  /** One step of the decoder, before the plus signs are replaced. */
  lemma DecodingUnfolds(e: string)
    requires e != []
    ensures TripletAt(e, 0) ==> Unescaped(e) == [TripletValue(e, 0)] + Unescaped(e[3..])
    ensures !TripletAt(e, 0) ==> Unescaped(e) == [if e[0] == '+' then ' ' else e[0]] + Unescaped(e[1..])
  {
    hide TripletValue, HexDigitToNum, IsHexDigit;
    var t := PlusToSpace(e);
    PlusKeepsTriplets(e);
    assert PlusToSpace(e[1..]) == t[1..];
    assert TripletAt(e, 0) ==> PlusToSpace(e[3..]) == t[3..];
  }

  lemma PlusKeepsTriplets(e: string)
    ensures TripletAt(PlusToSpace(e), 0) == TripletAt(e, 0)
    ensures TripletAt(e, 0) ==> TripletValue(PlusToSpace(e), 0) == TripletValue(e, 0)
  {
  }

  /** The decoder gives exactly the text that is spelled: every spelling is decoded, not only the one that `escape`
      chooses, and nothing is decoded to a text that it does not spell. */
  lemma {:induction false} UnescapeDecodesEverySpelling(e: string, s: string)
    ensures Unescaped(e) == s <==> Spells(e, s)
    decreases |e|
  {
    hide Unescaped, HexPair, TripletValue, IsHexDigit;
    if e == [] {
      NothingSpelled();
    } else {
      DecodingUnfolds(e);
      if s != [] {
        if TripletAt(e, 0) {
          TripletIsPair(e, s[0]);
          UnescapeDecodesEverySpelling(e[3..], s[1..]);
        } else {
          PairNeedsTriplet(e, s[0]);
          UnescapeDecodesEverySpelling(e[1..], s[1..]);
        }
        assert s == [s[0]] + s[1..];
      }
    }
  }

  lemma NothingSpelled()
    ensures Unescaped([]) == []
  {
  }

  lemma PairNeedsTriplet(e: string, c: char)
    requires !TripletAt(e, 0)
    ensures |e| >= 3 && e[0] == '%' ==> !HexPair(e[1], e[2], c)
  {
  }

  lemma {:induction false} EscapeSpells(s: bytes)
    ensures Spells(Escaped(s), s)
  {
    if s == [] {
    } else {
      var e := Escaped(s);
      EscapeSpells(s[1..]);
      if Unreserved(s[0]) {
        assert e[1..] == Escaped(s[1..]);
      } else {
        TripletSpells(s[0]);
        assert e[..3] == Triplet(s[0]) && e[3..] == Escaped(s[1..]);
        hide HexPair, Triplet;
      }
    }
  }

  lemma TripletSpells(c: byte)
    requires !Unreserved(c)
    ensures Triplet(c)[0] == '%' && HexPair(Triplet(c)[1], Triplet(c)[2], c)
  {
    assert ToUpper(c) == c;
    HexDigitValue(HexDigit(c as int / 16));
    HexDigitValue(HexDigit(c as int % 16));
  }

  /** `escape` works byte by byte: with `EscapedByte` this leaves it no other choice anywhere in a text. */
  lemma {:induction false} EscapedConcat(a: bytes, b: bytes)
    ensures Escaped(a + b) == Escaped(a) + Escaped(b)
  {
    if a == [] {
      assert a + b == b;
    } else {
      assert (a + b)[1..] == a[1..] + b;
      EscapedConcat(a[1..], b);
    }
  }

  lemma EscapedByte(c: byte)
    ensures if Unreserved(c) then Escaped([c]) == [c]
            else |Escaped([c])| == 3 && Escaped([c])[0] == '%' && HexPair(Escaped([c])[1], Escaped([c])[2], c)
                 && IsUpperHexDigit(Escaped([c])[1]) && IsUpperHexDigit(Escaped([c])[2])
  {
    assert [c][1..] == [];
    if !Unreserved(c) {
      TripletSpells(c);
      assert Escaped([c]) == Triplet(c);
    }
    hide Unreserved, HexPair;
  }

  lemma EscapeUnescape(s: bytes)
    ensures Unescaped(Escaped(s)) == s
  {
    EscapeSpells(s);
    UnescapeDecodesEverySpelling(Escaped(s), s);
  }

  /** Section 2 of RFC 3986: unreserved characters and upper-case percent triplets. */
  ghost predicate IsPercentEncoded(e: string)
    decreases |e|
  {
    || e == []
    || (Unreserved(e[0]) && IsPercentEncoded(e[1..]))
    || (TripletAt(e, 0) && IsUpperHexDigit(e[1]) && IsUpperHexDigit(e[2]) && IsPercentEncoded(e[3..]))
  }

  lemma {:induction false} EscapeIsPercentEncoded(s: bytes)
    ensures IsPercentEncoded(Escaped(s))
  {
    if s == [] {
    } else {
      EscapeIsPercentEncoded(s[1..]);
      assert Escaped(s)[if Unreserved(s[0]) then 1 else 3..] == Escaped(s[1..]);
    }
  }

  lemma {:induction false} PercentEncodedAlphabet(e: string)
    requires IsPercentEncoded(e)
    ensures forall c :: c in e ==> Unreserved(c) || c == '%'
    decreases |e|
  {
    if e == [] {
    } else if Unreserved(e[0]) && IsPercentEncoded(e[1..]) {
      PercentEncodedAlphabet(e[1..]);
      assert e == [e[0]] + e[1..];
    } else {
      PercentEncodedAlphabet(e[3..]);
      assert e == [e[0], e[1], e[2]] + e[3..];
    }
  }

  /** An escaped text holds none of the delimiters of a target or a query. */
  lemma EscapeIsFree(s: bytes, sep: char)
    requires !Unreserved(sep) && sep != '%'
    ensures sep !in Escaped(s)
  {
    EscapeIsPercentEncoded(s);
    PercentEncodedAlphabet(Escaped(s));
  }

  /** Nothing shorter than the input comes out, and the input itself exactly when it was safe. */
  lemma {:induction false} EscapeLeavesSafeTextAlone(s: bytes)
    ensures |Escaped(s)| >= |s|
    ensures Escaped(s) == s <==> forall c :: c in s ==> Unreserved(c)
  {
    if s == [] {
    } else {
      EscapeLeavesSafeTextAlone(s[1..]);
      assert s == [s[0]] + s[1..];
      if !Unreserved(s[0]) {
        assert |Escaped(s)| == 3 + |Escaped(s[1..])|;
      }
    }
  }
}
