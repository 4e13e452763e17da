/** The pagination cursor: a timestamp and an id as compact JSON in unpadded URL-safe base64. */
module Cursor {
  import opened Wrappers
  import opened Text
  import Base64

  const MICROS := 1_000_000
  const DAY_MICROS := 86_400 * MICROS

  /** A calendar timestamp with the UTC offset in microseconds; a naive one has none. */
  datatype DateTime = DateTime(
    year: nat, month: nat, day: nat,
    hour: nat, minute: nat, second: nat, micro: nat,
    offset: Option<int>)
  {
    predicate Valid() {
      && 1 <= year <= 9999 && 1 <= month <= 12 && 1 <= day <= DaysIn(year, month)
      && hour < 24 && minute < 60 && second < 60 && micro < MICROS
      && (offset.Some? ==> -DAY_MICROS < offset.value < DAY_MICROS)
    }
  }

  type Timestamp = t: DateTime | t.Valid() witness DateTime(1, 1, 1, 0, 0, 0, 0, None)

  type Uuid = n: nat | n < Pow(16, 32)

  predicate Leap(year: nat) {
    year % 4 == 0 && (year % 100 != 0 || year % 400 == 0)
  }

  function DaysIn(year: nat, month: nat): nat {
    if month == 2 then if Leap(year) then 29 else 28
    else if month in {4, 6, 9, 11} then 30
    else 31
  }

  datatype Position = Position(createdAt: Timestamp, entityId: Uuid)

  datatype CursorError = InvalidCursor | NaiveTimestamp

  // ------------------------------------------------- writing; every printer ends with `rest`

  function PrintDate(t: Timestamp, rest: string): string {
    Fixed(10, t.year, 4) + ("-" + (Fixed(10, t.month, 2) + ("-" + (Fixed(10, t.day, 2) + rest))))
  }

  function PrintClock(t: Timestamp, rest: string): string {
    "T" + (Fixed(10, t.hour, 2) + (":" + (Fixed(10, t.minute, 2) + (":" + (Fixed(10, t.second, 2) +
    PrintFraction(t.micro, rest))))))
  }

  function PrintFraction(micro: nat, rest: string): string {
    if micro == 0 then rest else "." + (Fixed(10, micro, 6) + rest)
  }

  /** An offset is written with seconds, and those with microseconds, only when needed. */
  function PrintOffset(offset: int, rest: string): string {
    var size := if offset < 0 then -offset else offset;
    var seconds, micro := size / MICROS, size % MICROS;
    (if offset < 0 then "-" else "+") +
    (Fixed(10, seconds / 3600, 2) + (":" + (Fixed(10, seconds / 60 % 60, 2) +
    (if seconds % 60 == 0 && micro == 0 then rest
     else ":" + (Fixed(10, seconds % 60, 2) + PrintFraction(micro, rest))))))
  }

  /** `datetime.isoformat`. */
  function PrintTimestamp(t: Timestamp, rest: string): string {
    PrintDate(t, PrintClock(t, if t.offset.None? then rest else PrintOffset(t.offset.value, rest)))
  }

  /** `str(UUID)`. */
  function PrintUuid(id: Uuid, rest: string): string {
    var hex := Fixed(16, id, 32);
    hex[..8] + ("-" + (hex[8..12] + ("-" + (hex[12..16] + ("-" + (hex[16..20] + ("-" + (hex[20..] + rest))))))))
  }

  function Payload(createdAt: Timestamp, entityId: Uuid): string {
    "{\"created_at\":\"" + PrintTimestamp(createdAt, "\",\"id\":\"" + PrintUuid(entityId, "\"}"))
  }

  function AsciiBytes(s: string): (bytes: seq<Byte>)
    ensures |bytes| == |s| && forall i :: 0 <= i < |s| && s[i] < 128 as char ==> bytes[i] == s[i] as int
  {
    seq(|s|, i requires 0 <= i < |s| => s[i] as int % 256)
  }

  /** The payload is ASCII, so its bytes are its characters. */
  function EncodeCursor(createdAt: Timestamp, entityId: Uuid): string {
    Base64.Stripped(Base64.Encode(AsciiBytes(Payload(createdAt, entityId))))
  }

  // ------------------------------------------------- reading; every parser returns what it left

  function ParseDate(s: string): Option<(nat, nat, nat, string)> {
    var (year, s) :- TakeNumber(s, 10, 4);
    var s :- Expect(s, "-");
    var (month, s) :- TakeNumber(s, 10, 2);
    var s :- Expect(s, "-");
    var (day, s) :- TakeNumber(s, 10, 2);
    Some((year, month, day, s))
  }

  function ParseFraction(s: string): Option<(nat, string)> {
    if s != "" && s[0] == '.' then TakeNumber(s[1..], 10, 6) else Some((0, s))
  }

  function ParseClock(s: string): Option<(nat, nat, nat, nat, string)> {
    var s :- Expect(s, "T");
    var (hour, s) :- TakeNumber(s, 10, 2);
    var s :- Expect(s, ":");
    var (minute, s) :- TakeNumber(s, 10, 2);
    var s :- Expect(s, ":");
    var (second, s) :- TakeNumber(s, 10, 2);
    var (micro, s) :- ParseFraction(s);
    Some((hour, minute, second, micro, s))
  }

  function ParseOffset(s: string): Option<(Option<int>, string)> {
    if s == "" || (s[0] != '+' && s[0] != '-') then Some((None, s))
    else
      var sign := if s[0] == '-' then -1 else 1;
      var (hours, s) :- TakeNumber(s[1..], 10, 2);
      var s :- Expect(s, ":");
      var (minutes, s) :- TakeNumber(s, 10, 2);
      if s == "" || s[0] != ':' then Some((Some(sign * (hours * 3600 + minutes * 60) * MICROS), s))
      else
        var (seconds, s) :- TakeNumber(s[1..], 10, 2);
        var (micro, s) :- ParseFraction(s);
        Some((Some(sign * ((hours * 3600 + minutes * 60 + seconds) * MICROS + micro)), s))
  }

  function ParseTimestamp(s: string): Option<(Timestamp, string)> {
    var (year, month, day, s) :- ParseDate(s);
    var (hour, minute, second, micro, s) :- ParseClock(s);
    var (offset, s) :- ParseOffset(s);
    var t := DateTime(year, month, day, hour, minute, second, micro, offset);
    if t.Valid() then Some((t, s)) else None
  }

  function TakeChars(s: string, n: nat): Option<(string, string)> {
    if |s| < n then None else Some((s[..n], s[n..]))
  }

  function ParseUuid(s: string): Option<(Uuid, string)> {
    var (a, s) :- TakeChars(s, 8);
    var s :- Expect(s, "-");
    var (b, s) :- TakeChars(s, 4);
    var s :- Expect(s, "-");
    var (c, s) :- TakeChars(s, 4);
    var s :- Expect(s, "-");
    var (d, s) :- TakeChars(s, 4);
    var s :- Expect(s, "-");
    var (e, s) :- TakeChars(s, 12);
    var n :- Value(16, a + b + c + d + e);
    if n < Pow(16, 32) then Some((n, s)) else None
  }

  function ParsePayload(s: string): Option<(Timestamp, Uuid)> {
    var s :- Expect(s, "{\"created_at\":\"");
    var (t, s) :- ParseTimestamp(s);
    var s :- Expect(s, "\",\"id\":\"");
    var (id, s) :- ParseUuid(s);
    var s :- Expect(s, "\"}");
    if s == "" then Some((t, id)) else None
  }

  function AsciiText(bytes: seq<Byte>): Option<string> {
    if forall b :: b in bytes ==> b < 128 then
      Some(seq(|bytes|, i requires 0 <= i < |bytes| => bytes[i] as char))
    else None
  }

  function DecodeCursor(value: string): Result<Position, CursorError> {
    match Base64.Decode(Base64.Padded(value))
    case None => Failure(InvalidCursor)
    case Some(raw) =>
      match AsciiText(raw)
      case None => Failure(InvalidCursor)
      case Some(text) =>
        match ParsePayload(text)
        case None => Failure(InvalidCursor)
        case Some((t, id)) =>
          if t.offset.None? then Failure(NaiveTimestamp) else Success(Position(t, id))
  }

  // ------------------------------------------------- what is written is read back

  lemma DateRoundTrip(t: Timestamp, rest: string)
    ensures ParseDate(PrintDate(t, rest)) == Some((t.year, t.month, t.day, rest))
  {
    hide TakeNumber, Expect, Fixed, Pow;
    Hundreds();
    var s3 := "-" + (Fixed(10, t.day, 2) + rest);
    var s2 := Fixed(10, t.month, 2) + s3;
    var s1 := "-" + s2;
    TakeFixed(10, t.year, 4, s1);
    ExpectLiteral("-", s2);
    TakeFixed(10, t.month, 2, s3);
    ExpectLiteral("-", Fixed(10, t.day, 2) + rest);
    TakeFixed(10, t.day, 2, rest);
  }

  /** The text that follows cannot be taken for a fraction or an offset part. */
  predicate Stops(rest: string) {
    rest == "" || rest[0] == '"'
  }

  lemma FractionRoundTrip(micro: nat, rest: string)
    requires micro < MICROS && (rest == "" || rest[0] != '.')
    ensures ParseFraction(PrintFraction(micro, rest)) == Some((micro, rest))
  {
    Hundreds();
    if micro != 0 {
      TakeFixed(10, micro, 6, rest);
      assert ("." + (Fixed(10, micro, 6) + rest))[1..] == Fixed(10, micro, 6) + rest;
    }
  }

  lemma ClockRoundTrip(t: Timestamp, rest: string)
    requires rest == "" || rest[0] != '.'
    ensures ParseClock(PrintClock(t, rest)) == Some((t.hour, t.minute, t.second, t.micro, rest))
  {
    hide TakeNumber, Expect, Fixed, Pow, ParseFraction, PrintFraction;
    Hundreds();
    var s5 := PrintFraction(t.micro, rest);
    var s4 := Fixed(10, t.second, 2) + s5;
    var s3 := ":" + s4;
    var s2 := Fixed(10, t.minute, 2) + s3;
    var s1 := ":" + s2;
    ExpectLiteral("T", Fixed(10, t.hour, 2) + s1);
    TakeFixed(10, t.hour, 2, s1);
    ExpectLiteral(":", s2);
    TakeFixed(10, t.minute, 2, s3);
    ExpectLiteral(":", s4);
    TakeFixed(10, t.second, 2, s5);
    FractionRoundTrip(t.micro, rest);
  }

  lemma OffsetParts(size: nat)
    requires size < DAY_MICROS
    ensures var seconds, micro := size / MICROS, size % MICROS;
            && seconds / 3600 < 100 && seconds / 60 % 60 < 100 && seconds % 60 < 100 && micro < MICROS
            && size == (seconds / 3600 * 3600 + seconds / 60 % 60 * 60 + seconds % 60) * MICROS + micro
  {
  }

  lemma OffsetRoundTrip(offset: int, rest: string)
    requires -DAY_MICROS < offset < DAY_MICROS && Stops(rest)
    ensures ParseOffset(PrintOffset(offset, rest)) == Some((Some(offset), rest))
  {
    hide TakeNumber, Expect, Fixed, Pow, ParseFraction, PrintFraction;
    Hundreds();
    var size := if offset < 0 then -offset else offset;
    var seconds, micro := size / MICROS, size % MICROS;
    OffsetParts(size);
    var s3 := if seconds % 60 == 0 && micro == 0 then rest
              else ":" + (Fixed(10, seconds % 60, 2) + PrintFraction(micro, rest));
    var s2 := Fixed(10, seconds / 60 % 60, 2) + s3;
    var s1 := Fixed(10, seconds / 3600, 2) + (":" + s2);
    assert PrintOffset(offset, rest)[1..] == s1;
    TakeFixed(10, seconds / 3600, 2, ":" + s2);
    ExpectLiteral(":", s2);
    TakeFixed(10, seconds / 60 % 60, 2, s3);
    if !(seconds % 60 == 0 && micro == 0) {
      assert s3[1..] == Fixed(10, seconds % 60, 2) + PrintFraction(micro, rest);
      TakeFixed(10, seconds % 60, 2, PrintFraction(micro, rest));
      FractionRoundTrip(micro, rest);
    }
  }

  lemma TimestampRoundTrip(t: Timestamp, rest: string)
    requires Stops(rest)
    ensures ParseTimestamp(PrintTimestamp(t, rest)) == Some((t, rest))
  {
    hide ParseDate, ParseClock, ParseOffset, PrintDate, PrintClock, PrintOffset;
    var tail := if t.offset.None? then rest else PrintOffset(t.offset.value, rest);
    if t.offset.Some? {
      OffsetStart(t.offset.value, rest);
      OffsetRoundTrip(t.offset.value, rest);
    } else {
      NoOffset(rest);
    }
    ClockRoundTrip(t, tail);
    DateRoundTrip(t, PrintClock(t, tail));
  }

  lemma OffsetStart(offset: int, rest: string)
    ensures var s := PrintOffset(offset, rest); s != "" && s[0] in "+-"
  {
  }

  lemma NoOffset(rest: string)
    requires Stops(rest)
    ensures ParseOffset(rest) == Some((None, rest))
  {
  }

  lemma TakePart(part: string, rest: string)
    ensures TakeChars(part + rest, |part|) == Some((part, rest))
  {
  }

  lemma UuidRoundTrip(id: Uuid, rest: string)
    ensures ParseUuid(PrintUuid(id, rest)) == Some((id, rest))
  {
    hide TakeChars, Expect, Fixed, Pow, Value;
    var hex := Fixed(16, id, 32);
    FixedRoundTrip(16, id, 32);
    var e := hex[20..] + rest;
    var d := hex[16..20] + ("-" + e);
    var c := hex[12..16] + ("-" + d);
    var b := hex[8..12] + ("-" + c);
    TakePart(hex[..8], "-" + b);
    ExpectLiteral("-", b);
    TakePart(hex[8..12], "-" + c);
    ExpectLiteral("-", c);
    TakePart(hex[12..16], "-" + d);
    ExpectLiteral("-", d);
    TakePart(hex[16..20], "-" + e);
    ExpectLiteral("-", e);
    TakePart(hex[20..], rest);
    assert hex[..8] + hex[8..12] + hex[12..16] + hex[16..20] + hex[20..] == hex;
  }

  lemma PayloadRoundTrip(t: Timestamp, id: Uuid)
    ensures ParsePayload(Payload(t, id)) == Some((t, id))
  {
    hide ParseTimestamp, PrintTimestamp, ParseUuid, PrintUuid, Expect;
    var close := "\"}";
    var s2 := PrintUuid(id, close);
    var s1 := "\",\"id\":\"" + s2;
    ExpectLiteral("{\"created_at\":\"", PrintTimestamp(t, s1));
    TimestampRoundTrip(t, s1);
    ExpectLiteral("\",\"id\":\"", s2);
    UuidRoundTrip(id, close);
    assert close == close + "";
    ExpectLiteral(close, "");
  }

  lemma {:induction false} FixedAscii(base: nat, n: nat, width: nat)
    requires 2 <= base <= 16
    ensures Ascii(Fixed(base, n, width))
  {
    hide DigitChar;
    if width > 0 {
      var q, d := Divide(n, base);
      FixedAscii(base, q, width - 1);
      FixedStep(base, q, d, width);
      DigitAscii(d);
    }
  }

  lemma DigitAscii(d: nat)
    requires d < 16
    ensures DigitChar(d) < 128 as char
  {
  }

  lemma TimestampAscii(t: Timestamp, rest: string)
    requires Ascii(rest)
    ensures Ascii(PrintTimestamp(t, rest))
  {
    hide PrintDate, PrintClock, PrintOffset;
    var tail := if t.offset.None? then rest else PrintOffset(t.offset.value, rest);
    if t.offset.Some? {
      OffsetAscii(t.offset.value, rest);
    }
    ClockAscii(t, tail);
    DateAscii(t, PrintClock(t, tail));
  }

  lemma DateAscii(t: Timestamp, rest: string)
    requires Ascii(rest)
    ensures Ascii(PrintDate(t, rest))
  {
    hide Fixed;
    FixedAscii(10, t.year, 4);
    FixedAscii(10, t.month, 2);
    FixedAscii(10, t.day, 2);
  }

  lemma FractionAscii(micro: nat, rest: string)
    requires Ascii(rest)
    ensures Ascii(PrintFraction(micro, rest))
  {
    hide Fixed;
    FixedAscii(10, micro, 6);
  }

  lemma ClockAscii(t: Timestamp, rest: string)
    requires Ascii(rest)
    ensures Ascii(PrintClock(t, rest))
  {
    hide Fixed, PrintFraction;
    FractionAscii(t.micro, rest);
    FixedAscii(10, t.hour, 2);
    FixedAscii(10, t.minute, 2);
    FixedAscii(10, t.second, 2);
  }

  lemma OffsetAscii(offset: int, rest: string)
    requires Ascii(rest)
    ensures Ascii(PrintOffset(offset, rest))
  {
    hide Fixed, PrintFraction;
    var size := if offset < 0 then -offset else offset;
    var seconds, micro := size / MICROS, size % MICROS;
    FixedAscii(10, seconds / 3600, 2);
    FixedAscii(10, seconds / 60 % 60, 2);
    FixedAscii(10, seconds % 60, 2);
    FractionAscii(micro, rest);
  }

  lemma UuidAscii(id: Uuid, rest: string)
    requires Ascii(rest)
    ensures Ascii(PrintUuid(id, rest))
  {
    hide Fixed;
    FixedAscii(16, id, 32);
    var hex := Fixed(16, id, 32);
    SliceAscii(hex, 0, 8);
    SliceAscii(hex, 8, 12);
    SliceAscii(hex, 12, 16);
    SliceAscii(hex, 16, 20);
    SliceAscii(hex, 20, 32);
    assert hex[0..8] == hex[..8] && hex[20..32] == hex[20..];
  }

  lemma SliceAscii(s: string, i: nat, j: nat)
    requires i <= j <= |s| && Ascii(s)
    ensures Ascii(s[i..j])
  {
    forall c | c in s[i..j]
      ensures c in s
    {
      var k :| 0 <= k < j - i && s[i..j][k] == c;
      assert s[i + k] == c;
    }
  }

  lemma PayloadAscii(t: Timestamp, id: Uuid)
    ensures Ascii(Payload(t, id))
  {
    hide PrintTimestamp, PrintUuid;
    UuidAscii(id, "\"}");
    TimestampAscii(t, "\",\"id\":\"" + PrintUuid(id, "\"}"));
  }

  lemma BytesRoundTrip(s: string)
    requires Ascii(s)
    ensures AsciiText(AsciiBytes(s)) == Some(s)
  {
    var bytes := AsciiBytes(s);
    forall b | b in bytes
      ensures b < 128
    {
      var i :| 0 <= i < |bytes| && bytes[i] == b;
      assert s[i] in s;
    }
    forall i | 0 <= i < |s|
      ensures bytes[i] as char == s[i]
    {
      assert s[i] in s;
    }
    assert AsciiText(bytes).value == s;
  }

  /** decode(encode(t, id)) is (t, id) for every aware timestamp, and the aware-only error for a naive one. */
  lemma CursorRoundTrip(t: Timestamp, id: Uuid)
    ensures DecodeCursor(EncodeCursor(t, id)) ==
            if t.offset.None? then Failure(NaiveTimestamp) else Success(Position(t, id))
    ensures EncodeCursor(t, id) != ""
  {
    hide Payload, ParsePayload, AsciiBytes, AsciiText, Base64.Encode, Base64.Decode, Base64.Padded, Base64.Stripped;
    PayloadText(t, id);
    PayloadRoundTrip(t, id);
    EmptyDecodes();
  }

  lemma EmptyDecodes()
    ensures Base64.Decode(Base64.Padded("")) == Some([])
    ensures AsciiText([]) == Some("")
    ensures ParsePayload("") == None
  {
    Base64.NoPads();
    assert AsciiText([]).value == "";
    assert !("{\"created_at\":\"" <= "");
  }

  /** Different positions have different cursors. */
  lemma CursorInjective(t: Timestamp, id: Uuid, u: Timestamp, jd: Uuid)
    ensures EncodeCursor(t, id) == EncodeCursor(u, jd) <==> t == u && id == jd
  {
    hide Payload, ParsePayload, AsciiBytes, AsciiText, Base64.Encode, Base64.Decode, Base64.Padded, Base64.Stripped;
    PayloadText(t, id);
    PayloadText(u, jd);
    PayloadRoundTrip(t, id);
    PayloadRoundTrip(u, jd);
  }

  /** The text inside a cursor is the payload, whatever its timestamp. */
  lemma PayloadText(t: Timestamp, id: Uuid)
    ensures Base64.Decode(Base64.Padded(EncodeCursor(t, id))).Some?
    ensures AsciiText(Base64.Decode(Base64.Padded(EncodeCursor(t, id))).value) == Some(Payload(t, id))
  {
    hide Payload, AsciiBytes, AsciiText, Base64.Encode, Base64.Decode, Base64.Padded, Base64.Stripped;
    PayloadAscii(t, id);
    Base64.UnpaddedRoundTrip(AsciiBytes(Payload(t, id)));
    BytesRoundTrip(Payload(t, id));
  }
}
