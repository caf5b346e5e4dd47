/** The Encode operation of ECMA-262 (section 19.2.6, URI handling functions)
    as used by `encodeURIComponent`: characters of the unreserved set are kept,
    every other code point is written as UTF-8 and each byte becomes a
    percent-encoded triplet `%HH` with upper-case hex digits (section 2.1 of
    RFC 3986). A Dafny `char` is a Unicode scalar value, so a `string` here is
    a JavaScript string that holds no lone surrogate. */
module Uri {
  import opened Wrappers

  type Byte = b: int | 0 <= b < 0x100

  /** The characters `encodeURIComponent` leaves as they are: ASCII letters,
      digits and the marks `- _ . ! ~ * ' ( )`. */
  predicate IsUnreserved(c: char) {
    ('A' <= c <= 'Z') || ('a' <= c <= 'z') || ('0' <= c <= '9')
    || c == '-' || c == '_' || c == '.' || c == '!' || c == '~' || c == '*' || c == '\'' || c == '(' || c == ')'
  }

  /** A byte that is the ASCII code of an unreserved character. */
  predicate IsUnreservedByte(b: int) {
    0 <= b < 0x80 && IsUnreserved(b as char)
  }

  predicate IsUpperHex(c: char) {
    ('0' <= c <= '9') || ('A' <= c <= 'F')
  }

  function HexDigit(n: int): (c: char)
    requires 0 <= n < 16
    ensures IsUpperHex(c)
  {
    if n < 10 then ('0' as int + n) as char else ('A' as int + n - 10) as char
  }

  /** The value of a hex digit of either case. */
  function HexValue(c: char): (r: Option<int>)
    ensures r.Some? ==> 0 <= r.value < 16
  {
    if '0' <= c <= '9' then Some(c as int - '0' as int)
    else if 'A' <= c <= 'F' then Some(c as int - 'A' as int + 10)
    else if 'a' <= c <= 'f' then Some(c as int - 'a' as int + 10)
    else None
  }

  /** The UTF-8 form of one code point. */
  function Utf8(c: char): (bs: seq<Byte>)
    ensures 1 <= |bs| <= 4
    ensures |bs| == 1 <==> c as int < 0x80
    ensures |bs| == 1 ==> bs[0] == c as int
    ensures |bs| > 1 ==> forall i :: 0 <= i < |bs| ==> bs[i] >= 0x80
  {
    var cp := c as int;
    if cp < 0x80 then [cp]
    else if cp < 0x800 then [0xC0 + cp / 64, 0x80 + cp % 64]
    else if cp < 0x10000 then [0xE0 + cp / 4096, 0x80 + (cp / 64) % 64, 0x80 + cp % 64]
    else [0xF0 + cp / 262144, 0x80 + (cp / 4096) % 64, 0x80 + (cp / 64) % 64, 0x80 + cp % 64]
  }

  function Utf8Bytes(s: string): seq<Byte> {
    if s == [] then [] else Utf8(s[0]) + Utf8Bytes(s[1..])
  }

  /** The byte a `%HH` triplet with upper-case hex digits stands for. */
  function HexByte(hi: char, lo: char): Byte
    requires IsUpperHex(hi) && IsUpperHex(lo)
  {
    HexValue(hi).value * 16 + HexValue(lo).value
  }

  /** The encoder's output form: a run of unreserved characters and `%HH`
      triplets with upper-case hex digits, where no triplet stands for an
      unreserved character (that one is always written as itself). */
  predicate IsEncoded(t: string)
    decreases |t|
  {
    if t == [] then true
    else if IsUnreserved(t[0]) then IsEncoded(t[1..])
    else
      |t| >= 3 && t[0] == '%' && IsUpperHex(t[1]) && IsUpperHex(t[2])
      && !IsUnreservedByte(HexByte(t[1], t[2])) && IsEncoded(t[3..])
  }

  function Triplet(b: Byte): (t: string)
    ensures |t| == 3 && t[0] == '%' && IsUpperHex(t[1]) && IsUpperHex(t[2])
    ensures HexByte(t[1], t[2]) == b
  {
    HexDigitValue(b / 16);
    HexDigitValue(b % 16);
    ['%', HexDigit(b / 16), HexDigit(b % 16)]
  }

  lemma HexDigitValue(n: int)
    requires 0 <= n < 16
    ensures HexValue(HexDigit(n)) == Some(n)
  {
  }

  /** Triplets for bytes none of which is an unreserved character. */
  function Triplets(bs: seq<Byte>): (t: string)
    ensures |t| == 3 * |bs|
    ensures (forall i :: 0 <= i < |bs| ==> !IsUnreservedByte(bs[i])) ==> IsEncoded(t)
  {
    if bs == [] then []
    else
      var rest := Triplets(bs[1..]);
      assert (Triplet(bs[0]) + rest)[3..] == rest;
      assert forall i :: 1 <= i < |bs| ==> bs[1..][i - 1] == bs[i];
      Triplet(bs[0]) + rest
  }

  function EncodeChar(c: char): (t: string)
    ensures IsEncoded(t)
    ensures |t| == 1 <==> IsUnreserved(c)
    ensures IsUnreserved(c) ==> t == [c]
    ensures !IsUnreserved(c) ==> |t| >= 3
  {
    if IsUnreserved(c) then [c]
    else
      assert forall i :: 0 <= i < |Utf8(c)| ==> !IsUnreservedByte(Utf8(c)[i]);
      Triplets(Utf8(c))
  }

  /** `encodeURIComponent` on a string of code points. */
  function EncodeURIComponent(s: string): (t: string)
    ensures IsEncoded(t)
    ensures |t| >= |s|
  {
    if s == [] then []
    else
      var head, rest := EncodeChar(s[0]), EncodeURIComponent(s[1..]);
      IsEncodedAppend(head, rest);
      head + rest
  }

  lemma {:induction false} IsEncodedAppend(a: string, b: string)
    requires IsEncoded(a) && IsEncoded(b)
    ensures IsEncoded(a + b)
    decreases |a|
  {
    if a == [] {
      assert a + b == b;
    } else {
      var ab := a + b;
      var k := if IsUnreserved(a[0]) then 1 else 3;
      assert ab[..k] == a[..k];
      assert ab[k..] == a[k..] + b;
      IsEncodedAppend(a[k..], b);
    }
  }

  /** Every character of well-formed encoder output is unreserved, a `%` or an
      upper-case hex digit. */
  lemma {:induction false} EncodedAlphabet(t: string)
    requires IsEncoded(t)
    ensures forall i :: 0 <= i < |t| ==> IsUnreserved(t[i]) || t[i] == '%' || IsUpperHex(t[i])
    decreases |t|
  {
    if t != [] {
      var k := if IsUnreserved(t[0]) then 1 else 3;
      EncodedAlphabet(t[k..]);
      assert forall i :: k <= i < |t| ==> t[i] == t[k..][i - k];
    }
  }

  /** Encoder output cannot start a new path segment, a query or a fragment. */
  lemma EncodedHasNoDelimiters(t: string)
    requires IsEncoded(t)
    ensures '/' !in t && '?' !in t && '#' !in t
  {
    EncodedAlphabet(t);
  }

  /** `EncodeURIComponent` is the identity exactly on strings of unreserved
      characters. */
  lemma {:induction false} EncodeIdentity(s: string)
    ensures EncodeURIComponent(s) == s <==> forall i :: 0 <= i < |s| ==> IsUnreserved(s[i])
  {
    if s != [] {
      EncodeIdentity(s[1..]);
      var head, rest := EncodeChar(s[0]), EncodeURIComponent(s[1..]);
      assert EncodeURIComponent(s) == head + rest;
      if IsUnreserved(s[0]) {
        assert s == [s[0]] + s[1..];
        assert (forall i :: 0 <= i < |s| ==> IsUnreserved(s[i])) <==> (forall i :: 0 <= i < |s[1..]| ==> IsUnreserved(s[1..][i])) by {
          assert forall i :: 1 <= i < |s| ==> s[i] == s[1..][i - 1];
        }
        if head + rest == s {
          assert rest == s[1..];
        }
      } else {
        assert |head + rest| > |s|;
      }
    }
  }

  // ----- the inverse, used to state what the encoder preserves -----

  /** Reads encoder output back into bytes; it accepts only unreserved
      characters and `%HH` triplets (hex digits of either case). */
  function PercentDecode(t: string): Option<seq<Byte>>
    decreases |t|
  {
    if t == [] then Some([])
    else if IsUnreserved(t[0]) then Prepend([t[0] as int], PercentDecode(t[1..]))
    else if |t| >= 3 && t[0] == '%' && HexValue(t[1]).Some? && HexValue(t[2]).Some? then
      Prepend([HexValue(t[1]).value * 16 + HexValue(t[2]).value], PercentDecode(t[3..]))
    else None
  }

  function Prepend(a: seq<Byte>, r: Option<seq<Byte>>): Option<seq<Byte>> {
    match r
    case None => None
    case Some(b) => Some(a + b)
  }

  predicate IsContinuation(b: int) {
    0x80 <= b < 0xC0
  }

  /** Decodes the first UTF-8 sequence of `bs`: the code point and the number
      of bytes it takes. Overlong forms and surrogates are refused. */
  function DecodeOne(bs: seq<Byte>): (r: Option<(char, nat)>)
    requires bs != []
    ensures r.Some? ==> 1 <= r.value.1 <= |bs|
  {
    var b0, b1, b2, b3: int := bs[0], if |bs| > 1 then bs[1] else 0, if |bs| > 2 then bs[2] else 0, if |bs| > 3 then bs[3] else 0;
    if b0 < 0x80 then Some((b0 as char, 1))
    else if 0xC0 <= b0 < 0xE0 && |bs| >= 2 && IsContinuation(b1) then
      var cp := (b0 - 0xC0) * 64 + (b1 - 0x80);
      if 0x80 <= cp then Some((cp as char, 2)) else None
    else if 0xE0 <= b0 < 0xF0 && |bs| >= 3 && IsContinuation(b1) && IsContinuation(b2) then
      var cp := (b0 - 0xE0) * 4096 + (b1 - 0x80) * 64 + (b2 - 0x80);
      if 0x800 <= cp && !(0xD800 <= cp < 0xE000) then Some((cp as char, 3)) else None
    else if 0xF0 <= b0 < 0xF8 && |bs| >= 4 && IsContinuation(b1) && IsContinuation(b2) && IsContinuation(b3) then
      var cp := (b0 - 0xF0) * 262144 + (b1 - 0x80) * 4096 + (b2 - 0x80) * 64 + (b3 - 0x80);
      if 0x10000 <= cp < 0x110000 then Some((cp as char, 4)) else None
    else None
  }

  function Utf8Decode(bs: seq<Byte>): Option<string>
    decreases |bs|
  {
    if bs == [] then Some([])
    else
      match DecodeOne(bs)
      case None => None
      case Some((c, n)) =>
        match Utf8Decode(bs[n..])
        case None => None
        case Some(rest) => Some([c] + rest)
  }

  /** The inverse of `EncodeURIComponent` on its own output. */
  function DecodeComponent(t: string): Option<string> {
    match PercentDecode(t)
    case None => None
    case Some(bs) => Utf8Decode(bs)
  }

  lemma DivideBy64Twice(n: nat)
    ensures n / 4096 == (n / 64) / 64 && n / 262144 == (n / 4096) / 64
  {
    var q, lo := n / 64, n % 64;
    var q2, mid := q / 64, q % 64;
    assert n == 4096 * q2 + 64 * mid + lo;
    var q3, mid2 := q2 / 64, q2 % 64;
    assert n == 262144 * q3 + 4096 * mid2 + 64 * mid + lo;
  }

  lemma Utf8DecodeOne(c: char, rest: seq<Byte>)
    ensures DecodeOne(Utf8(c) + rest) == Some((c, |Utf8(c)|))
  {
    var cp := c as int;
    var bs := Utf8(c) + rest;
    DivideBy64Twice(cp);
    if cp < 0x80 {
    } else if cp < 0x800 {
      assert bs[0] == 0xC0 + cp / 64 && bs[1] == 0x80 + cp % 64;
      assert (bs[0] as int - 0xC0) * 64 + (bs[1] as int - 0x80) == cp;
    } else if cp < 0x10000 {
      assert bs[0] == 0xE0 + cp / 4096 && bs[1] == 0x80 + (cp / 64) % 64 && bs[2] == 0x80 + cp % 64;
      assert (bs[0] as int - 0xE0) * 4096 + (bs[1] as int - 0x80) * 64 + (bs[2] as int - 0x80) == cp;
    } else {
      assert bs[0] == 0xF0 + cp / 262144 && bs[1] == 0x80 + (cp / 4096) % 64;
      assert bs[2] == 0x80 + (cp / 64) % 64 && bs[3] == 0x80 + cp % 64;
      assert (bs[0] as int - 0xF0) * 262144 + (bs[1] as int - 0x80) * 4096 + (bs[2] as int - 0x80) * 64 + (bs[3] as int - 0x80) == cp;
    }
  }

  /** UTF-8 decoding undoes UTF-8 encoding. */
  lemma {:induction false} Utf8RoundTrip(s: string)
    ensures Utf8Decode(Utf8Bytes(s)) == Some(s)
  {
    if s != [] {
      var bs := Utf8Bytes(s);
      Utf8DecodeOne(s[0], Utf8Bytes(s[1..]));
      assert bs[|Utf8(s[0])|..] == Utf8Bytes(s[1..]);
      Utf8RoundTrip(s[1..]);
      assert [s[0]] + s[1..] == s;
    }
  }

  lemma TripletDecode(b: Byte, rest: string)
    ensures PercentDecode(Triplet(b) + rest) == Prepend([b], PercentDecode(rest))
  {
    var s := Triplet(b) + rest;
    assert s[0] == '%' && s[1] == Triplet(b)[1] && s[2] == Triplet(b)[2];
    assert s[3..] == rest;
  }

  lemma {:induction false} TripletsDecode(bs: seq<Byte>, t: string)
    ensures PercentDecode(Triplets(bs) + t) == Prepend(bs, PercentDecode(t))
  {
    if bs == [] {
      assert Triplets(bs) + t == t;
      match PercentDecode(t)
      case None =>
      case Some(r) => assert bs + r == r;
    } else {
      var b := bs[0];
      assert Triplets(bs) + t == Triplet(b) + (Triplets(bs[1..]) + t);
      TripletDecode(b, Triplets(bs[1..]) + t);
      TripletsDecode(bs[1..], t);
      match PercentDecode(t)
      case None =>
      case Some(r) => assert [b] + (bs[1..] + r) == bs + r;
    }
  }

  lemma EncodeCharDecode(c: char, t: string)
    ensures PercentDecode(EncodeChar(c) + t) == Prepend(Utf8(c), PercentDecode(t))
  {
    if IsUnreserved(c) {
      assert (EncodeChar(c) + t)[1..] == t;
    } else {
      TripletsDecode(Utf8(c), t);
    }
  }

  /** Percent-decoding the encoder's output gives the UTF-8 bytes of the input. */
  lemma {:induction false} PercentRoundTrip(s: string)
    ensures PercentDecode(EncodeURIComponent(s)) == Some(Utf8Bytes(s))
  {
    if s != [] {
      EncodeCharDecode(s[0], EncodeURIComponent(s[1..]));
      PercentRoundTrip(s[1..]);
    }
  }

  /** Decoding undoes `EncodeURIComponent`: no input information is lost. */
  lemma EncodeRoundTrip(s: string)
    ensures DecodeComponent(EncodeURIComponent(s)) == Some(s)
  {
    PercentRoundTrip(s);
    Utf8RoundTrip(s);
  }

  lemma EncodeInjective(s1: string, s2: string)
    ensures EncodeURIComponent(s1) == EncodeURIComponent(s2) <==> s1 == s2
  {
    EncodeRoundTrip(s1);
    EncodeRoundTrip(s2);
  }

  // ----- the encoder's output is the only text of its form -----

  /** The byte the first character or triplet of well-formed output stands
      for, and how many characters it takes. */
  function HeadByte(t: string): (r: (Byte, nat))
    requires t != [] && IsEncoded(t)
    ensures r.1 <= |t| && IsEncoded(t[r.1..])
    ensures r.1 == 1 <==> IsUnreserved(t[0])
  {
    if IsUnreserved(t[0]) then (t[0] as int, 1) else (HexByte(t[1], t[2]), 3)
  }

  lemma DecodeHead(t: string)
    requires t != [] && IsEncoded(t)
    ensures PercentDecode(t) == Prepend([HeadByte(t).0], PercentDecode(t[HeadByte(t).1..]))
    ensures IsUnreservedByte(HeadByte(t).0) <==> IsUnreserved(t[0])
  {
  }

  lemma HexByteUnique(a: char, b: char, c: char, d: char)
    requires IsUpperHex(a) && IsUpperHex(b) && IsUpperHex(c) && IsUpperHex(d)
    requires HexByte(a, b) == HexByte(c, d)
    ensures a == c && b == d
  {
  }

  lemma DecodeNonEmpty(t: string)
    requires t != [] && IsEncoded(t) && PercentDecode(t).Some?
    ensures PercentDecode(t).value != []
  {
    DecodeHead(t);
  }

  /** Two texts of the encoder's form that decode to the same bytes are the
      same text. */
  lemma {:induction false} EncodedUnique(t1: string, t2: string)
    requires IsEncoded(t1) && IsEncoded(t2)
    requires PercentDecode(t1).Some? && PercentDecode(t1) == PercentDecode(t2)
    ensures t1 == t2
    decreases |t1|
  {
    if t1 == [] {
      if t2 != [] { DecodeNonEmpty(t2); }
    } else if t2 == [] {
      DecodeNonEmpty(t1);
    } else {
      DecodeHead(t1);
      DecodeHead(t2);
      var (b1, k1) := HeadByte(t1);
      var (b2, k2) := HeadByte(t2);
      var r1, r2 := PercentDecode(t1[k1..]).value, PercentDecode(t2[k2..]).value;
      assert r1 == ([b1] + r1)[1..] && r2 == ([b2] + r2)[1..];
      assert b1 == ([b1] + r1)[0] && b2 == ([b2] + r2)[0];
      if k1 == 1 {
        assert t1[..1] == t2[..1];
      } else {
        HexByteUnique(t1[1], t1[2], t2[1], t2[2]);
        assert t1[..3] == t2[..3];
      }
      EncodedUnique(t1[k1..], t2[k2..]);
      assert t1 == t1[..k1] + t1[k1..] && t2 == t2[..k2] + t2[k2..];
    }
  }

  /** `EncodeURIComponent(s)` is the only text of the encoder's form that
      stands for the UTF-8 bytes of `s`: unreserved characters are always
      written as themselves, wherever they occur, and every other byte as one
      upper-case triplet. */
  lemma EncodeUnique(t: string, s: string)
    requires IsEncoded(t) && PercentDecode(t) == Some(Utf8Bytes(s))
    ensures t == EncodeURIComponent(s)
  {
    PercentRoundTrip(s);
    EncodedUnique(t, EncodeURIComponent(s));
  }

  /** Each character is encoded on its own: encoding distributes over
      concatenation. */
  lemma {:induction false} EncodeConcat(a: string, b: string)
    ensures EncodeURIComponent(a + b) == EncodeURIComponent(a) + EncodeURIComponent(b)
  {
    if a == [] {
      assert a + b == b;
    } else {
      assert (a + b)[0] == a[0] && (a + b)[1..] == a[1..] + b;
      EncodeConcat(a[1..], b);
    }
  }
}
