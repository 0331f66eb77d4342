/** The opaque cursors of the list and sync endpoints. */
module Cursors {
  import opened Common
  import opened Text
  import Strings
  import Timestamps

  /** A uuid as the 128-bit number whose order PostgreSQL compares. */
  type Uuid = nat

  predicate IsUuid(id: Uuid) { id < Pow(16, 32) }

  function Dashed(h: string): string
    requires |h| == 32
  {
    h[..8] + "-" + h[8..12] + "-" + h[12..16] + "-" + h[16..20] + "-" + h[20..]
  }

  function UuidString(id: Uuid): string { Dashed(Fixed(id, 16, 32)) }

  function Undashed(s: string): Option<string> {
    if |s| != 36 || s[8] != '-' || s[13] != '-' || s[18] != '-' || s[23] != '-' then None
    else Some(s[..8] + s[9..13] + s[14..18] + s[19..23] + s[24..])
  }

  /** uuid.Parse: the dashed form, alone, after "urn:uuid:" in any letter case, or between two
      characters that are not looked at; or 32 digits without dashes. */
  function ParseUuid(s: string): Option<Uuid> {
    var dashed :=
      if |s| == 36 then Undashed(s)
      else if |s| == 45 && Strings.EqualFold(s[..9], "urn:uuid:") then Undashed(s[9..])
      else if |s| == 38 then Undashed(s[1..37])
      else if |s| == 32 then Some(s)
      else None;
    match dashed
    case None => None
    case Some(h) => ParseDigits(h, 16)
  }

  lemma DashesRoundTrip(h: string)
    requires |h| == 32
    ensures Undashed(Dashed(h)) == Some(h)
  {
    var s := Dashed(h);
    assert |s| == 36 && s[8] == '-' && s[13] == '-' && s[18] == '-' && s[23] == '-';
    assert s[..8] == h[..8];
    assert s[9..13] == h[8..12];
    assert s[14..18] == h[12..16];
    assert s[19..23] == h[16..20];
    assert s[24..] == h[20..];
    assert h[..8] + h[8..12] == h[..12] && h[..12] + h[12..16] == h[..16] && h[..16] + h[16..20] == h[..20];
    assert h[..20] + h[20..] == h;
  }

  lemma UuidRoundTrip(id: Uuid)
    requires IsUuid(id)
    ensures ParseUuid(UuidString(id)) == Some(id)
  {
    FixedRoundTrip(id, 16, 32);
    DashesRoundTrip(Fixed(id, 16, 32));
    hide Fixed, ParseDigits, Dashed, Undashed;
  }

  // ---------- the sync cursor ----------

  function EncodeSequence(n: int): string
    requires IsBytes(FormatInt(n))
  {
    Encode(ToBytes(FormatInt(n)))
  }

  /** An absent cursor is sequence 0; None is a 400 answer. */
  function DecodeSequence(raw: string): Option<int> {
    if raw == "" then Some(0)
    else match Decode(raw)
      case None => None
      case Some(bytes) => ParseInt(FromBytes(bytes))
  }

  lemma FormatIntIsBytes(n: int)
    ensures IsBytes(FormatInt(n)) && FormatInt(n) != ""
  {
    DecimalRoundTrip(if n < 0 then -n else n);
  }

  lemma {:induction false} EncodeIsNotEmpty(bs: seq<Byte>)
    requires bs != []
    ensures Encode(bs) != ""
  {
  }

  lemma SequenceRoundTrip(n: int)
    requires -INT64_LIMIT <= n < INT64_LIMIT
    ensures IsBytes(FormatInt(n)) && DecodeSequence(EncodeSequence(n)) == Some(n)
  {
    FormatIntIsBytes(n);
    EncodeIsNotEmpty(ToBytes(FormatInt(n)));
    Base64RoundTrip(ToBytes(FormatInt(n)));
    BytesRoundTrip(FormatInt(n));
    IntRoundTrip(n);
  }

  lemma DecodedIsInt64(raw: string)
    ensures DecodeSequence(raw).Some? ==> -INT64_LIMIT <= DecodeSequence(raw).value < INT64_LIMIT
  {
  }

  // ---------- the keyset cursor ----------

  datatype Position = Position(releasedAt: Timestamps.Instant, id: Uuid)

  function KeyText(p: Position): string
    requires 0 <= p.releasedAt
  {
    Timestamps.Format(p.releasedAt) + ['|'] + UuidString(p.id)
  }

  function EncodeKey(p: Position): string
    requires 0 <= p.releasedAt && IsBytes(KeyText(p))
  {
    Encode(ToBytes(KeyText(p)))
  }

  /** None is a 400 answer. */
  function DecodeKey(raw: string): Option<Position> {
    match Decode(raw)
    case None => None
    case Some(bytes) =>
      var parts := Strings.Split(FromBytes(bytes), "|");
      if |parts| != 2 then None
      else match (Timestamps.Parse(parts[0]), ParseUuid(parts[1]))
        case (Some(when), Some(id)) => Some(Position(when, id))
        case _ => None
  }

  /** Single-byte text without the separator. */
  predicate Plain(s: string) { IsBytes(s) && '|' !in s }

  lemma PlainAppends(a: string, b: string)
    ensures Plain(a + b) <==> Plain(a) && Plain(b)
  {
    if Plain(a + b) {
      assert forall i :: 0 <= i < |a| ==> a[i] == (a + b)[i];
      assert forall i :: 0 <= i < |b| ==> b[i] == (a + b)[|a| + i];
    }
  }

  lemma PlainIsClosed()
    ensures forall a, b {:trigger Plain(a + b)} :: Plain(a + b) <==> Plain(a) && Plain(b)
  {
    forall a, b ensures Plain(a + b) <==> Plain(a) && Plain(b) { PlainAppends(a, b); }
  }

  lemma FixedIsPlain(n: nat, base: nat, w: nat)
    requires Base(base)
    ensures Plain(Fixed(n, base, w))
  {
    FixedIsDigits(n, base, w);
  }

  lemma {:induction false} TrimIsPlain(s: string)
    requires Plain(s)
    ensures Plain(Timestamps.TrimZeros(s))
    decreases |s|
  {
    if s != "" && s[|s| - 1] == '0' { TrimIsPlain(s[..|s| - 1]); }
  }

  lemma TimeIsPlain(t: Timestamps.Instant)
    requires 0 <= t
    ensures Plain(Timestamps.Format(t))
  {
    var c := Timestamps.ToCivil(t);
    FixedIsPlain(c.year, 10, 4);
    FixedIsPlain(c.month, 10, 2);
    FixedIsPlain(c.day, 10, 2);
    FixedIsPlain(c.hour, 10, 2);
    FixedIsPlain(c.minute, 10, 2);
    FixedIsPlain(c.second, 10, 2);
    FixedIsPlain(c.nanos, 10, 9);
    TrimIsPlain(Fixed(c.nanos, 10, 9));
    PlainAppends(".", Timestamps.TrimZeros(Fixed(c.nanos, 10, 9)));
    PlainAppends(Timestamps.Fraction(c.nanos), "Z");
    hide Fixed, Timestamps.ToCivil, Timestamps.Fraction, Plain;
    assert Plain("-") && Plain("T") && Plain(":") by { PlainSeparators(); }
    PlainSeven(Fixed(c.year, 10, 4), Fixed(c.month, 10, 2), Fixed(c.day, 10, 2),
               Fixed(c.hour, 10, 2), Fixed(c.minute, 10, 2), Fixed(c.second, 10, 2), Timestamps.Fraction(c.nanos)
                   + "Z");
  }

  lemma PlainSeparators()
    ensures Plain("-") && Plain("T") && Plain(":")
  {
  }

  lemma PlainSeven(a: string, b: string, c: string, d: string, e: string, f: string, g: string)
    requires Plain(a) && Plain(b) && Plain(c) && Plain(d) && Plain(e) && Plain(f) && Plain(g)
    ensures Plain(a + "-" + b + "-" + c + "T" + d + ":" + e + ":" + f + g)
  {
    PlainSeparators();
    PlainIsClosed();
    hide Plain;
  }

  lemma UuidIsPlain(id: Uuid)
    ensures Plain(UuidString(id))
  {
    FixedIsPlain(id, 16, 32);
    var h := Fixed(id, 16, 32);
    forall i, j | 0 <= i <= j <= 32 ensures Plain(h[i..j]) {
      assert forall k :: 0 <= k < |h[i..j]| ==> h[i..j][k] == h[i + k];
    }
    assert h[..8] == h[0..8] && h[20..] == h[20..32];
    hide Fixed, Plain;
    PlainFive(h[..8], h[8..12], h[12..16], h[16..20], h[20..]);
  }

  lemma PlainFive(a: string, b: string, c: string, d: string, e: string)
    requires Plain(a) && Plain(b) && Plain(c) && Plain(d) && Plain(e)
    ensures Plain(a + "-" + b + "-" + c + "-" + d + "-" + e)
  {
    PlainSeparators();
    PlainIsClosed();
    hide Plain;
  }

  lemma TextIsPlain(p: Position)
    requires 0 <= p.releasedAt
    ensures IsBytes(KeyText(p)) && '|' !in Timestamps.Format(p.releasedAt) && '|' !in UuidString(p.id)
  {
    TimeIsPlain(p.releasedAt);
    UuidIsPlain(p.id);
    hide Timestamps.Format, UuidString;
  }

  /** The cursor handed out decodes to the key it was made from. */
  lemma KeyRoundTrip(p: Position)
    requires Timestamps.Writable(p.releasedAt) && IsUuid(p.id)
    ensures IsBytes(KeyText(p)) && DecodeKey(EncodeKey(p)) == Some(p)
  {
    TextIsPlain(p);
    Base64RoundTrip(ToBytes(KeyText(p)));
    BytesRoundTrip(KeyText(p));
    Timestamps.InstantRoundTrip(p.releasedAt);
    UuidRoundTrip(p.id);
    hide Timestamps.Format, Timestamps.Parse, UuidString, ParseUuid, Encode, Decode, ToBytes, FromBytes;
    SplitsInTwo(Timestamps.Format(p.releasedAt), UuidString(p.id));
    hide Strings.Split;
  }

  lemma SplitsInTwo(a: string, b: string)
    requires '|' !in a && '|' !in b
    ensures Strings.Split(a + ['|'] + b, "|") == [a, b]
  {
    Strings.FreeOfChar(a, '|');
    Strings.FreeOfChar(b, '|');
    Strings.SplitAtFirst(a, b, "|");
    Strings.SplitWithout(b, "|");
  }
}
