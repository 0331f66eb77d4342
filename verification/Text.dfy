/** Numbers, dates and bytes as text: the pieces of an opaque cursor. Strings here are
    byte strings; every character is below 256. */
module Text {
  import opened Common

  // ---------- digits ----------

  function DigitChar(d: nat): char
    requires d < 16
  {
    if d < 10 then '0' + d as char else 'a' + (d - 10) as char
  }

  /** Accepts both letter cases, as uuid.Parse does. */
  function DigitValue(c: char, base: nat): Option<nat> {
    var v :=
      if '0' <= c <= '9' then c as int - '0' as int
      else if 'a' <= c <= 'f' then c as int - 'a' as int + 10
      else if 'A' <= c <= 'F' then c as int - 'A' as int + 10
      else 16;
    if v < base && v < 16 then Some(v) else None
  }

  predicate Base(base: nat) { base == 10 || base == 16 }

  function Pow(base: nat, n: nat): nat { if n == 0 then 1 else base * Pow(base, n - 1) }

  /** `w` digits, leading zeros included. */
  function Fixed(n: nat, base: nat, w: nat): (s: string)
    requires Base(base)
    ensures |s| == w
    decreases w
  {
    if w == 0 then "" else Fixed(n / base, base, w - 1) + [DigitChar(n % base)]
  }

  function ParseDigits(s: string, base: nat): Option<nat>
    requires Base(base)
  {
    if s == "" then Some(0)
    else
      match (ParseDigits(s[..|s| - 1], base), DigitValue(s[|s| - 1], base))
      case (Some(n), Some(d)) => Some(n * base + d)
      case _ => None
  }

  lemma DigitRoundTrip(d: nat, base: nat)
    requires Base(base) && d < base
    ensures DigitValue(DigitChar(d), base) == Some(d)
  {
  }

  lemma {:induction false} FixedRoundTrip(n: nat, base: nat, w: nat)
    requires Base(base) && n < Pow(base, w)
    ensures ParseDigits(Fixed(n, base, w), base) == Some(n)
    decreases w
  {
    if w > 0 {
      var s, p := Fixed(n, base, w), Pow(base, w - 1);
      assert n / base < p by {
        if base == 10 { assert n < 10 * p; } else { assert n < 16 * p; }
      }
      FixedRoundTrip(n / base, base, w - 1);
      DigitRoundTrip(n % base, base);
      assert s[..|s| - 1] == Fixed(n / base, base, w - 1);
      if base == 10 { assert n == n / 10 * 10 + n % 10; } else { assert n == n / 16 * 16 + n % 16; }
    }
  }

  predicate AllIn(s: string, base: nat) {
    forall i :: 0 <= i < |s| ==> DigitValue(s[i], base).Some?
  }

  lemma {:induction false} FixedIsDigits(n: nat, base: nat, w: nat)
    requires Base(base)
    ensures AllIn(Fixed(n, base, w), base)
    decreases w
  {
    if w > 0 {
      FixedIsDigits(n / base, base, w - 1);
      DigitRoundTrip(n % base, base);
    }
  }

  // ---------- decimal integers ----------

  const INT64_LIMIT: int := 0x8000_0000_0000_0000

  function Decimal(n: nat): string {
    if n < 10 then [DigitChar(n)] else Decimal(n / 10) + [DigitChar(n % 10)]
  }

  /** strconv.FormatInt(n, 10). */
  function FormatInt(n: int): string {
    if n < 0 then "-" + Decimal(-n) else Decimal(n)
  }

  /** strconv.ParseInt(s, 10, 64). */
  function ParseInt(s: string): Option<int> {
    if s == "" then None
    else
      var signed := s[0] == '-' || s[0] == '+';
      var digits := if signed then s[1..] else s;
      if digits == "" then None
      else match ParseDigits(digits, 10)
        case None => None
        case Some(n) =>
          var v: int := if s[0] == '-' then 0 - n else n;
          if -INT64_LIMIT <= v < INT64_LIMIT then Some(v) else None
  }

  lemma {:induction false} DecimalRoundTrip(n: nat)
    ensures ParseDigits(Decimal(n), 10) == Some(n)
    ensures Decimal(n) != "" && AllIn(Decimal(n), 10)
  {
    DigitRoundTrip(n % 10, 10);
    var s := Decimal(n);
    if n < 10 {
      assert s[..0] == "";
    } else {
      DecimalRoundTrip(n / 10);
      assert s[..|s| - 1] == Decimal(n / 10);
    }
  }

  lemma IntRoundTrip(n: int)
    requires -INT64_LIMIT <= n < INT64_LIMIT
    ensures ParseInt(FormatInt(n)) == Some(n)
  {
    DecimalRoundTrip(if n < 0 then -n else n);
    var s := FormatInt(n);
    if n < 0 {
      assert s[1..] == Decimal(-n);
    } else {
      assert DigitValue(s[0], 10).Some?;
    }
  }

  // ---------- base64url without padding: section 5 of RFC 4648 ----------

  type Byte = b: nat | b < 256

  type Sextet = v: nat | v < 64

  function SixBits(v: Sextet): char {
    if v < 26 then 'A' + v as char
    else if v < 52 then 'a' + (v - 26) as char
    else if v < 62 then '0' + (v - 52) as char
    else if v == 62 then '-' else '_'
  }

  function SixBitsValue(c: char): Option<Sextet> {
    if 'A' <= c <= 'Z' then Some(c as int - 'A' as int)
    else if 'a' <= c <= 'z' then Some(c as int - 'a' as int + 26)
    else if '0' <= c <= '9' then Some(c as int - '0' as int + 52)
    else if c == '-' then Some(62)
    else if c == '_' then Some(63)
    else None
  }

  // Three bytes are four sextets.
  function First(x: Byte): Sextet { x as int / 4 }
  function Second(x: Byte, y: Byte): Sextet { x as int % 4 * 16 + y as int / 16 }
  function Third(y: Byte, z: Byte): Sextet { y as int % 16 * 4 + z as int / 64 }
  function Fourth(z: Byte): Sextet { z as int % 64 }

  function Encode(bs: seq<Byte>): string {
    if bs == [] then ""
    else if |bs| == 1 then [SixBits(First(bs[0])), SixBits(Second(bs[0], 0))]
    else if |bs| == 2 then
      [SixBits(First(bs[0])), SixBits(Second(bs[0], bs[1])), SixBits(Third(bs[1], 0))]
    else
      [SixBits(First(bs[0])), SixBits(Second(bs[0], bs[1])), SixBits(Third(bs[1], bs[2])), SixBits(Fourth(bs[2]))]
      + Encode(bs[3..])
  }

  function Sextets(s: string): Option<seq<Sextet>> {
    if s == "" then Some([])
    else match (SixBitsValue(s[0]), Sextets(s[1..]))
      case (Some(v), Some(vs)) => Some([v] + vs)
      case _ => None
  }

  function Byte0(a: Sextet, b: Sextet): Byte { a as int * 4 + b as int / 16 }
  function Byte1(b: Sextet, c: Sextet): Byte { b as int % 16 * 16 + c as int / 4 }
  function Byte2(c: Sextet, d: Sextet): Byte { c as int % 4 * 64 + d as int }

  /** Groups of four sextets; a last group of one is malformed and the spare bits of a
      shorter one are ignored. */
  function Groups(v: seq<Sextet>): Option<seq<Byte>> {
    if v == [] then Some([])
    else if |v| == 1 then None
    else if |v| == 2 then Some([Byte0(v[0], v[1])])
    else if |v| == 3 then Some([Byte0(v[0], v[1]), Byte1(v[1], v[2])])
    else match Groups(v[4..])
      case None => None
      case Some(rest) => Some([Byte0(v[0], v[1]), Byte1(v[1], v[2]), Byte2(v[2], v[3])] + rest)
  }

  function WithoutNewlines(s: string): string {
    if s == "" then ""
    else (if s[0] == '\r' || s[0] == '\n' then "" else [s[0]]) + WithoutNewlines(s[1..])
  }

  /** base64.RawURLEncoding.DecodeString. */
  function Decode(s: string): Option<seq<Byte>> {
    match Sextets(WithoutNewlines(s))
    case None => None
    case Some(v) => Groups(v)
  }

  lemma SixBitsRoundTrip(v: Sextet)
    ensures SixBitsValue(SixBits(v)) == Some(v) && SixBits(v) != '\r' && SixBits(v) != '\n'
  {
  }

  lemma UpperCase(v: nat)
    requires v < 26
    ensures "ABCDEFGHIJKLMNOPQRSTUVWXYZ"[v] == 'A' + v as char
  {
  }

  lemma LowerCase(v: nat)
    requires v < 26
    ensures "abcdefghijklmnopqrstuvwxyz"[v] == 'a' + v as char
  {
  }

  /** The alphabet of section 5 of RFC 4648. */
  lemma SixBitsAlphabet(v: Sextet)
    ensures v < 26 ==> SixBits(v) == "ABCDEFGHIJKLMNOPQRSTUVWXYZ"[v]
    ensures 26 <= v < 52 ==> SixBits(v) == "abcdefghijklmnopqrstuvwxyz"[v - 26]
    ensures v >= 52 ==> SixBits(v) == "0123456789-_"[v - 52]
  {
    if v < 26 { UpperCase(v); } else if v < 52 { LowerCase(v - 26); }
  }

  /** The sextets `Encode` writes out. */
  function Split(bs: seq<Byte>): seq<Sextet> {
    if bs == [] then []
    else if |bs| == 1 then [First(bs[0]), Second(bs[0], 0)]
    else if |bs| == 2 then [First(bs[0]), Second(bs[0], bs[1]), Third(bs[1], 0)]
    else [First(bs[0]), Second(bs[0], bs[1]), Third(bs[1], bs[2]), Fourth(bs[2])] + Split(bs[3..])
  }

  function Spell(v: seq<Sextet>): string {
    if v == [] then "" else [SixBits(v[0])] + Spell(v[1..])
  }

  lemma {:induction false} SpellReads(v: seq<Sextet>)
    ensures WithoutNewlines(Spell(v)) == Spell(v) && Sextets(Spell(v)) == Some(v)
    decreases |v|
  {
    if v != [] {
      SixBitsRoundTrip(v[0]);
      SpellReads(v[1..]);
      var s := Spell(v);
      assert s[0] == SixBits(v[0]) && s[1..] == Spell(v[1..]);
      assert v == [v[0]] + v[1..];
    }
  }

  lemma {:induction false} SpellAppends(v: seq<Sextet>, w: seq<Sextet>)
    ensures Spell(v + w) == Spell(v) + Spell(w)
    decreases |v|
  {
    if v == [] {
      assert v + w == w;
    } else {
      assert (v + w)[1..] == v[1..] + w;
      SpellAppends(v[1..], w);
    }
  }

  lemma SpellFour(a: Sextet, b: Sextet, c: Sextet, d: Sextet)
    ensures Spell([a, b]) == [SixBits(a), SixBits(b)]
    ensures Spell([a, b, c]) == [SixBits(a), SixBits(b), SixBits(c)]
    ensures Spell([a, b, c, d]) == [SixBits(a), SixBits(b), SixBits(c), SixBits(d)]
  {
    SpellAppends([a], [b]);
    SpellAppends([a, b], [c]);
    SpellAppends([a, b, c], [d]);
    assert [a] + [b] == [a, b] && [a, b] + [c] == [a, b, c] && [a, b, c] + [d] == [a, b, c, d];
  }

  lemma {:induction false} EncodeSpells(bs: seq<Byte>)
    ensures Encode(bs) == Spell(Split(bs))
    decreases |bs|
  {
    if |bs| == 1 {
      SpellFour(First(bs[0]), Second(bs[0], 0), 0, 0);
    } else if |bs| == 2 {
      SpellFour(First(bs[0]), Second(bs[0], bs[1]), Third(bs[1], 0), 0);
    } else if |bs| >= 3 {
      EncodeSpells(bs[3..]);
      SpellFour(First(bs[0]), Second(bs[0], bs[1]), Third(bs[1], bs[2]), Fourth(bs[2]));
      SpellAppends([First(bs[0]), Second(bs[0], bs[1]), Third(bs[1], bs[2]), Fourth(bs[2])], Split(bs[3..]));
    }
  }

  lemma BytesComeBack(x: Byte, y: Byte, z: Byte)
    ensures Byte0(First(x), Second(x, y)) == x
    ensures Byte1(Second(x, y), Third(y, z)) == y
    ensures Byte2(Third(y, z), Fourth(z)) == z
  {
  }

  lemma GroupOfFour(a: Sextet, b: Sextet, c: Sextet, d: Sextet, rest: seq<Sextet>)
    requires Groups(rest).Some?
    ensures Groups([a, b, c, d] + rest) == Some([Byte0(a, b), Byte1(b, c), Byte2(c, d)] + Groups(rest).value)
  {
    hide Byte0, Byte1, Byte2;
    assert ([a, b, c, d] + rest)[4..] == rest;
  }

  lemma {:induction false} GroupsUndoSplit(bs: seq<Byte>)
    ensures Groups(Split(bs)) == Some(bs)
    decreases |bs|
  {
    hide First, Second, Third, Fourth, Byte0, Byte1, Byte2;
    if |bs| == 1 {
      BytesComeBack(bs[0], 0, 0);
      assert bs == [bs[0]];
    } else if |bs| == 2 {
      BytesComeBack(bs[0], bs[1], 0);
      assert bs == [bs[0], bs[1]];
    } else if |bs| >= 3 {
      GroupsUndoSplit(bs[3..]);
      BytesComeBack(bs[0], bs[1], bs[2]);
      GroupOfFour(First(bs[0]), Second(bs[0], bs[1]), Third(bs[1], bs[2]), Fourth(bs[2]), Split(bs[3..]));
      hide Groups;
      assert bs == [bs[0], bs[1], bs[2]] + bs[3..];
    }
  }

  lemma Base64RoundTrip(bs: seq<Byte>)
    ensures Decode(Encode(bs)) == Some(bs)
  {
    EncodeSpells(bs);
    SpellReads(Split(bs));
    GroupsUndoSplit(bs);
  }

  predicate IsBytes(s: string) {
    forall i :: 0 <= i < |s| ==> s[i] as int < 256
  }

  function ToBytes(s: string): seq<Byte>
    requires IsBytes(s)
  {
    if s == "" then []
    else
      var b: Byte := s[0] as int;
      [b] + ToBytes(s[1..])
  }

  function FromBytes(bs: seq<Byte>): string {
    if bs == [] then "" else [bs[0] as char] + FromBytes(bs[1..])
  }

  lemma {:induction false} BytesRoundTrip(s: string)
    requires IsBytes(s)
    ensures FromBytes(ToBytes(s)) == s
  {
    if s != "" {
      BytesRoundTrip(s[1..]);
      assert ToBytes(s)[1..] == ToBytes(s[1..]);
    }
  }
}
