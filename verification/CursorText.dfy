/** What a cursor looks like, written down without its printers: the alphabet and the blocks of base64
    (section 5 of RFC 4648), the ISO 8601 text of a timestamp and the hyphenated text of a UUID. */
module CursorText {
  import opened Wrappers
  import opened Text
  import opened Cursor
  import Base64

  // ------------------------------------------------- base64

  /** The character for six bits: A to Z, a to z, 0 to 9, the hyphen and the underscore. */
  predicate Denotes(c: char, x: Base64.Sextet) {
    && (x < 26 ==> c as int == 'A' as int + x)
    && (26 <= x < 52 ==> c as int == 'a' as int + (x - 26))
    && (52 <= x < 62 ==> c as int == '0' as int + (x - 52))
    && (x == 62 ==> c == '-')
    && (x == 63 ==> c == '_')
  }

  /** The characters are the base 64 digits of n, as many as there are. */
  ghost predicate Denote(s: string, n: int) {
    exists xs: seq<Base64.Sextet> ::
      |xs| == |s| && Number(xs) == n && forall i :: 0 <= i < |s| ==> Denotes(s[i], xs[i])
  }

  function Number(xs: seq<Base64.Sextet>): int {
    if xs == [] then 0 else Number(xs[..|xs| - 1]) * 64 + xs[|xs| - 1]
  }

  lemma CharsDenote(xs: seq<Base64.Sextet>)
    ensures Denote(Base64.Chars(xs), Number(xs))
  {
  }

  lemma NumberSteps(f: Base64.Sextet, s: Base64.Sextet, t: Base64.Sextet, u: Base64.Sextet)
    ensures Number([f, s]) == f * 64 + s
    ensures Number([f, s, t]) == (f * 64 + s) * 64 + t
    ensures Number([f, s, t, u]) == ((f * 64 + s) * 64 + t) * 64 + u
  {
    assert Number([f]) == f;
    assert [f, s][..1] == [f] && [f, s, t][..2] == [f, s] && [f, s, t, u][..3] == [f, s, t];
  }

  lemma BlockBits(a: Byte, b: Byte, c: Byte)
    ensures (a as int * 256 + b as int) * 256 + c as int ==
            ((Base64.First(a) * 64 + Base64.Second(a, b)) * 64 + Base64.Third(b, c)) * 64 + Base64.Fourth(c)
  {
  }

  /** Every three bytes are a number of 24 bits, written as four digits. */
  lemma FullBlock(bytes: seq<Byte>)
    requires |bytes| >= 3
    ensures var text := Base64.Encode(bytes);
            && |text| >= 4 && text[4..] == Base64.Encode(bytes[3..])
            && Denote(text[..4], (bytes[0] as int * 256 + bytes[1] as int) * 256 + bytes[2] as int)
  {
    hide Denote, Number, Base64.First, Base64.Second, Base64.Third, Base64.Fourth;
    var a, b, c := bytes[0], bytes[1], bytes[2];
    var xs := [Base64.First(a), Base64.Second(a, b), Base64.Third(b, c), Base64.Fourth(c)];
    CharsDenote(xs);
    NumberSteps(xs[0], xs[1], xs[2], xs[3]);
    BlockBits(a, b, c);
    assert Base64.Encode(bytes)[..4] == Base64.Chars(xs);
  }

  /** Two bytes at the end are filled up with two zero bits and one pad, one byte with four and two. */
  lemma LastBlock(bytes: seq<Byte>)
    requires |bytes| <= 2
    ensures var text := Base64.Encode(bytes);
            && (bytes == [] ==> text == "")
            && (|bytes| == 1 ==>
                  |text| == 4 && text[2..] == "==" && Denote(text[..2], bytes[0] as int * 16))
            && (|bytes| == 2 ==>
                  |text| == 4 && text[3..] == "=" && Denote(text[..3], (bytes[0] as int * 256 + bytes[1] as int) * 4))
  {
    hide Denote, Number;
    if |bytes| == 1 {
      var xs := [Base64.First(bytes[0]), Base64.Second(bytes[0], 0)];
      CharsDenote(xs);
      NumberSteps(xs[0], xs[1], 0, 0);
      assert Base64.Encode(bytes)[..2] == Base64.Chars(xs);
    } else if |bytes| == 2 {
      var xs := [Base64.First(bytes[0]), Base64.Second(bytes[0], bytes[1]), Base64.Third(bytes[1], 0)];
      CharsDenote(xs);
      NumberSteps(xs[0], xs[1], xs[2], 0);
      assert Base64.Encode(bytes)[..3] == Base64.Chars(xs);
    }
  }

  /** A cursor is the encoding without its pads. */
  lemma CursorIsUnpadded(t: Timestamp, id: Uuid)
    ensures var cursor := EncodeCursor(t, id);
            && '=' !in cursor
            && Base64.Encode(AsciiBytes(Payload(t, id))) == cursor + seq((4 - |cursor| % 4) % 4, _ => '=')
  {
    hide Payload, Base64.Encode;
    var bytes := AsciiBytes(Payload(t, id));
    var body := Base64.EncodeShape(bytes);
    assert body != "" ==> body[|body| - 1] in body;
    Base64.PadStrip(body, (4 - |body| % 4) % 4);
  }

  // ------------------------------------------------- numerals

  predicate IsHex(c: char) { '0' <= c <= '9' || 'a' <= c <= 'f' }

  function HexValue(c: char): int
    requires IsHex(c)
  {
    if c <= '9' then c as int - '0' as int else c as int - 'a' as int + 10
  }

  /** The number that digits, lower case from ten on, denote. */
  function NumberOf(s: string, base: nat): int
    requires forall c :: c in s ==> IsHex(c)
  {
    if s == "" then 0
    else
      assert forall c :: c in s[..|s| - 1] ==> c in s;
      NumberOf(s[..|s| - 1], base) * base + HexValue(s[|s| - 1])
  }

  /** As many digits as are called for, none of them too large, with this value. */
  predicate Numeral(s: string, base: nat, width: nat, n: int) {
    |s| == width && (forall c :: c in s ==> IsHex(c) && HexValue(c) < base) && NumberOf(s, base) == n
  }

  lemma HexDigit(d: nat)
    requires d < 16
    ensures IsHex(DigitChar(d)) && HexValue(DigitChar(d)) == d
  {
  }

  lemma {:induction false} FixedNumeral(base: nat, n: nat, width: nat)
    requires 2 <= base <= 16 && n < Pow(base, width)
    ensures Numeral(Fixed(base, n, width), base, width, n)
    decreases width
  {
    hide Pow, DigitChar, Fixed, IsHex, HexValue;
    if width > 0 {
      var q, d := Divide(n, base);
      PowStep(base, width);
      QuotientBound(q, d, base, Pow(base, width - 1));
      FixedNumeral(base, q, width - 1);
      FixedStep(base, q, d, width);
      HexDigit(d);
      assert Fixed(base, n, width)[..width - 1] == Fixed(base, q, width - 1);
    } else {
      PowZero(base);
    }
  }

  // ------------------------------------------------- timestamps

  /** Years, months and days as four, two and two decimal digits. */
  lemma DateText(t: Timestamp, rest: string)
    ensures var s := PrintDate(t, rest);
            && |s| >= 10 && s[4] == s[7] == '-' && s[10..] == rest
            && Numeral(s[..4], 10, 4, t.year) && Numeral(s[5..7], 10, 2, t.month) && Numeral(s[8..10], 10, 2, t.day)
  {
    hide Fixed, Numeral, Pow;
    Hundreds();
    FixedNumeral(10, t.year, 4);
    FixedNumeral(10, t.month, 2);
    FixedNumeral(10, t.day, 2);
    Slices3(Fixed(10, t.year, 4), "-", Fixed(10, t.month, 2), "-", Fixed(10, t.day, 2), rest);
  }

  lemma Slices3(a: string, p: string, b: string, q: string, c: string, rest: string)
    requires |p| == |q| == 1 && |b| == |c| == 2
    ensures var s, n := a + (p + (b + (q + (c + rest)))), |a|;
            && |s| == n + 6 + |rest|
            && s[..n] == a && s[n] == p[0] && s[n + 1..n + 3] == b && s[n + 3] == q[0] && s[n + 4..n + 6] == c
            && s[n + 6..] == rest
  {
    var s3 := c + rest;
    var s2 := q + s3;
    var s1 := b + s2;
    var s, n := a + (p + s1), |a|;
    assert s[n + 1..] == s1 && s[n + 1..n + 3] == s1[..2] && s[n + 3..] == s2 && s[n + 4..] == s3;
    assert s[n + 4..n + 6] == s3[..2] && s[n + 6..] == s3[2..];
  }

  /** Hours, minutes and seconds as two decimal digits each, then microseconds as six unless there are none. */
  lemma ClockText(t: Timestamp, rest: string)
    ensures var s := PrintClock(t, rest);
            && |s| >= 9 && s[0] == 'T' && s[3] == s[6] == ':' && IsFraction(s[9..], t.micro, rest)
            && Numeral(s[1..3], 10, 2, t.hour) && Numeral(s[4..6], 10, 2, t.minute) && Numeral(s[7..9], 10, 2, t.second)
  {
    hide Fixed, Numeral, Pow, PrintFraction;
    Hundreds();
    FixedNumeral(10, t.hour, 2);
    FixedNumeral(10, t.minute, 2);
    FixedNumeral(10, t.second, 2);
    FractionText(t.micro, rest);
    Slices3("T" + Fixed(10, t.hour, 2), ":", Fixed(10, t.minute, 2), ":", Fixed(10, t.second, 2),
            PrintFraction(t.micro, rest));
    var tail := ":" + (Fixed(10, t.minute, 2) + (":" + (Fixed(10, t.second, 2) + PrintFraction(t.micro, rest))));
    assert ("T" + Fixed(10, t.hour, 2)) + tail == "T" + (Fixed(10, t.hour, 2) + tail);
    var s := PrintClock(t, rest);
    assert s[1..3] == s[..3][1..] == Fixed(10, t.hour, 2);
  }

  predicate IsFraction(s: string, micro: nat, rest: string) {
    if micro == 0 then s == rest
    else |s| >= 7 && s[0] == '.' && Numeral(s[1..7], 10, 6, micro) && s[7..] == rest
  }

  lemma FractionText(micro: nat, rest: string)
    requires micro < MICROS
    ensures IsFraction(PrintFraction(micro, rest), micro, rest)
  {
    hide Fixed, Numeral, Pow;
    Hundreds();
    if micro > 0 {
      FixedNumeral(10, micro, 6);
      var s := PrintFraction(micro, rest);
      assert s[1..7] == Fixed(10, micro, 6) && s[7..] == rest;
    }
  }

  /** The ISO 8601 text: date, T, clock, and the offset if there is one. */
  lemma TimestampText(t: Timestamp, rest: string)
    ensures var s := PrintTimestamp(t, rest);
            && |s| >= 19 && s[4] == s[7] == '-' && s[10] == 'T' && s[13] == s[16] == ':'
            && Numeral(s[..4], 10, 4, t.year) && Numeral(s[5..7], 10, 2, t.month) && Numeral(s[8..10], 10, 2, t.day)
            && Numeral(s[11..13], 10, 2, t.hour) && Numeral(s[14..16], 10, 2, t.minute)
            && Numeral(s[17..19], 10, 2, t.second)
            && IsFraction(s[19..], t.micro, if t.offset.None? then rest else PrintOffset(t.offset.value, rest))
  {
    hide PrintDate, PrintClock, Numeral, IsFraction;
    var tail := if t.offset.None? then rest else PrintOffset(t.offset.value, rest);
    var clock := PrintClock(t, tail);
    var s := PrintDate(t, clock);
    ClockText(t, tail);
    DateText(t, clock);
    assert s[11..13] == s[10..][1..3] && s[14..16] == s[10..][4..6] && s[17..19] == s[10..][7..9];
    assert s[19..] == s[10..][9..];
  }

  /** A sign, two digits of hours and two of minutes, and seconds only if the offset has any. */
  lemma OffsetText(offset: int, rest: string) returns (hours: nat, minutes: nat, seconds: nat, micro: nat)
    requires -DAY_MICROS < offset < DAY_MICROS
    ensures hours < 24 && minutes < 60 && seconds < 60 && micro < 1_000_000
    ensures (if offset < 0 then -offset else offset) ==
            (hours * 3600 + minutes * 60 + seconds) * 1_000_000 + micro
    ensures var s := PrintOffset(offset, rest);
            && |s| >= 6 && s[0] == (if offset < 0 then '-' else '+') && s[3] == ':'
            && Numeral(s[1..3], 10, 2, hours) && Numeral(s[4..6], 10, 2, minutes)
            && if seconds == 0 && micro == 0 then s[6..] == rest
               else
                 |s| >= 9 && s[6] == ':' && Numeral(s[7..9], 10, 2, seconds) && IsFraction(s[9..], micro, rest)
  {
    hide Fixed, Numeral, Pow, PrintFraction, IsFraction;
    Hundreds();
    var size := if offset < 0 then -offset else offset;
    OffsetParts(size);
    var all := size / MICROS;
    hours, minutes, seconds, micro := all / 3600, all / 60 % 60, all % 60, size % MICROS;
    FixedNumeral(10, hours, 2);
    FixedNumeral(10, minutes, 2);
    FixedNumeral(10, seconds, 2);
    FractionText(micro, rest);
    var sign := if offset < 0 then "-" else "+";
    var tail := if seconds == 0 && micro == 0 then rest
                else ":" + (Fixed(10, seconds, 2) + PrintFraction(micro, rest));
    var s := PrintOffset(offset, rest);
    assert s == sign + (Fixed(10, hours, 2) + (":" + (Fixed(10, minutes, 2) + tail)));
    Slices2(sign, Fixed(10, hours, 2), Fixed(10, minutes, 2), tail);
    if seconds != 0 || micro != 0 {
      assert s[6..] == tail;
      assert s[7..9] == tail[1..3] == Fixed(10, seconds, 2) && s[9..] == tail[3..] == PrintFraction(micro, rest);
    }
  }

  lemma Slices2(sign: string, hours: string, minutes: string, tail: string)
    requires |sign| == 1 && |hours| == |minutes| == 2
    ensures var s := sign + (hours + (":" + (minutes + tail)));
            |s| >= 6 && s[0] == sign[0] && s[1..3] == hours && s[3] == ':' && s[4..6] == minutes && s[6..] == tail
  {
    var s2 := minutes + tail;
    var s1 := hours + (":" + s2);
    var s := sign + s1;
    assert s[1..] == s1 && s[1..3] == s1[..2] && s[4..] == s2 && s[4..6] == s2[..2] && s[6..] == s2[2..];
  }

  // ------------------------------------------------- ids and the payload

  /** Thirty-two lower-case hexadecimal digits, in groups of 8, 4, 4, 4 and 12. */
  lemma UuidText(id: Uuid, rest: string)
    ensures var s := PrintUuid(id, rest);
            && |s| >= 36 && s[8] == s[13] == s[18] == s[23] == '-' && s[36..] == rest
            && Numeral(s[..8] + s[9..13] + s[14..18] + s[19..23] + s[24..36], 16, 32, id)
  {
    hide Fixed, Numeral, Pow;
    FixedNumeral(16, id, 32);
    var hex := Fixed(16, id, 32);
    var s := PrintUuid(id, rest);
    assert s[..8] == hex[..8] && s[9..13] == hex[8..12] && s[14..18] == hex[12..16] && s[19..23] == hex[16..20];
    assert s[24..36] == hex[20..] && s[36..] == rest;
    assert hex[..8] + hex[8..12] + hex[12..16] + hex[16..20] + hex[20..] == hex;
  }

  /** The payload is an object of the two texts, in this order. */
  lemma PayloadIs(t: Timestamp, id: Uuid)
    ensures var s := Payload(t, id);
            && |s| >= 15 && s[..15] == "{\"created_at\":\""
            && s[15..] == PrintTimestamp(t, "\",\"id\":\"" + PrintUuid(id, "\"}"))
  {
    hide PrintTimestamp, PrintUuid;
  }
}
