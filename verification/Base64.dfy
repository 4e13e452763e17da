/** URL-safe base64 without padding, as written by the cursor encoder, and the lenient
    decoder it is read back with (RFC 4648, section 5; padding in section 3.2). */
module Base64 {
  import opened Wrappers
  import opened Text

  type Sextet = x: int | 0 <= x < 64

  function SextetChar(x: Sextet): char {
    if x < 26 then 'A' + x as char
    else if x < 52 then 'a' + (x - 26) as char
    else if x < 62 then '0' + (x - 52) as char
    else if x == 62 then '-'
    else '_'
  }

  /** The decoder's table, after `-` and `_` were translated to `+` and `/`. */
  function CharSextet(c: char): Option<Sextet> {
    if 'A' <= c <= 'Z' then Some((c - 'A') as int)
    else if 'a' <= c <= 'z' then Some((c - 'a') as int + 26)
    else if '0' <= c <= '9' then Some((c - '0') as int + 52)
    else if c == '-' || c == '+' then Some(62)
    else if c == '_' || c == '/' then Some(63)
    else None
  }

  lemma SextetRoundTrip(x: Sextet)
    ensures CharSextet(SextetChar(x)) == Some(x)
    ensures SextetChar(x) != '='
  {
  }

  /** The four sextets of three bytes. */
  function First(a: Byte): Sextet { a / 4 }
  function Second(a: Byte, b: Byte): Sextet { a % 4 * 16 + b / 16 }
  function Third(b: Byte, c: Byte): Sextet { b % 16 * 4 + c / 64 }
  function Fourth(c: Byte): Sextet { c % 64 }

  function Chars(xs: seq<Sextet>): (s: string)
    ensures |s| == |xs| && forall i :: 0 <= i < |xs| ==> s[i] == SextetChar(xs[i])
  {
    seq(|xs|, i requires 0 <= i < |xs| => SextetChar(xs[i]))
  }

  function Encode(bytes: seq<Byte>): string {
    if bytes == [] then ""
    else if |bytes| == 1 then Chars([First(bytes[0]), Second(bytes[0], 0)]) + "=="
    else if |bytes| == 2 then
      Chars([First(bytes[0]), Second(bytes[0], bytes[1]), Third(bytes[1], 0)]) + "="
    else
      Chars([First(bytes[0]), Second(bytes[0], bytes[1]), Third(bytes[1], bytes[2]), Fourth(bytes[2])]) +
      Encode(bytes[3..])
  }

  /** `rstrip("=")`. */
  function Stripped(s: string): string {
    if s != "" && s[|s| - 1] == '=' then Stripped(s[..|s| - 1]) else s
  }

  /** `value + "=" * (-len(value) % 4)`. */
  function Padded(s: string): string {
    s + seq((4 - |s| % 4) % 4, _ => '=')
  }

  /** The decoder's registers: position in the quad, the bits left over, pads seen in a row, output. */
  datatype Registers = Registers(position: nat, left: nat, pads: nat, out: seq<Byte>)

  /** One alphabet character. */
  function Shift(r: Registers, x: Sextet): (r': Registers)
    requires r.position < 4 && r.left < 64
    ensures r'.position < 4 && r'.left < 64
  {
    match r.position
    case 0 => Registers(1, x, 0, r.out)
    case 1 => Registers(2, x % 16, 0, r.out + [(r.left * 4 + x / 16) % 256])
    case 2 => Registers(3, x % 4, 0, r.out + [(r.left * 16 + x / 4) % 256])
    case 3 => Registers(0, 0, 0, r.out + [(r.left * 64 + x) % 256])
  }

  /** The decoding loop: characters outside the alphabet are skipped, enough padding ends it,
      and the input must not stop inside a quad. */
  function DecodeFrom(r: Registers, s: string): Option<seq<Byte>>
    requires r.position < 4 && r.left < 64
    decreases |s|
  {
    if s == "" then
      if r.position == 0 then Some(r.out) else None
    else if s[0] == '=' then
      if r.position >= 2 && r.position + r.pads + 1 >= 4 then Some(r.out)
      else if r.position >= 2 then DecodeFrom(r.(pads := r.pads + 1), s[1..])
      else DecodeFrom(r, s[1..])
    else match CharSextet(s[0])
      case None => DecodeFrom(r, s[1..])
      case Some(x) => DecodeFrom(Shift(r, x), s[1..])
  }

  function Decode(s: string): Option<seq<Byte>> {
    DecodeFrom(Registers(0, 0, 0, []), s)
  }

  lemma ShiftChar(r: Registers, x: Sextet, rest: string)
    requires r.position < 4 && r.left < 64
    ensures DecodeFrom(r, [SextetChar(x)] + rest) == DecodeFrom(Shift(r, x), rest)
  {
    SextetRoundTrip(x);
    assert ([SextetChar(x)] + rest)[1..] == rest;
  }

  /** The output of a run of alphabet characters. */
  function ShiftAll(r: Registers, xs: seq<Sextet>): (r': Registers)
    requires r.position < 4 && r.left < 64
    ensures r'.position < 4 && r'.left < 64
    decreases |xs|
  {
    if xs == [] then r else ShiftAll(Shift(r, xs[0]), xs[1..])
  }

  lemma {:induction false} ShiftChars(r: Registers, xs: seq<Sextet>, rest: string)
    requires r.position < 4 && r.left < 64
    ensures DecodeFrom(r, Chars(xs) + rest) == DecodeFrom(ShiftAll(r, xs), rest)
    decreases |xs|
  {
    if xs == [] {
      assert Chars(xs) + rest == rest;
    } else {
      assert Chars(xs) + rest == [SextetChar(xs[0])] + (Chars(xs[1..]) + rest);
      ShiftChar(r, xs[0], Chars(xs[1..]) + rest);
      ShiftChars(Shift(r, xs[0]), xs[1..], rest);
    }
  }

  lemma FirstByte(a: Byte, b: Byte)
    ensures (First(a) * 4 + Second(a, b) / 16) % 256 == a
  {
  }

  lemma SecondByte(a: Byte, b: Byte, c: Byte)
    ensures (Second(a, b) % 16 * 16 + Third(b, c) / 4) % 256 == b
  {
    Digits(a % 4, b / 16, 16);
    Digits(b % 16, c / 64, 4);
    assert Second(a, b) % 16 == b / 16 && Third(b, c) / 4 == b % 16;
  }

  lemma Digits(high: nat, low: nat, base: nat)
    requires low < base
    ensures (high * base + low) / base == high && (high * base + low) % base == low
  {
    QuotientUnique(high * base + low, base, high);
    DivMod(high * base + low, base);
  }

  lemma ThirdByte(b: Byte, c: Byte)
    ensures (Third(b, c) % 4 * 64 + Fourth(c)) % 256 == c
  {
  }

  lemma TwoSextets(out: seq<Byte>, a: Byte, b: Byte)
    ensures ShiftAll(Registers(0, 0, 0, out), [First(a), Second(a, b)]) ==
            Registers(2, Second(a, b) % 16, 0, out + [a])
  {
    hide First, Second, Third, Fourth;
    FirstByte(a, b);
    var r1 := Shift(Registers(0, 0, 0, out), First(a));
    assert [First(a), Second(a, b)][1..] == [Second(a, b)];
    assert ShiftAll(r1, [Second(a, b)]) == Shift(r1, Second(a, b)) by {
      assert [Second(a, b)][1..] == [];
    }
  }

  lemma {:induction false} ShiftAllJoin(r: Registers, xs: seq<Sextet>, ys: seq<Sextet>)
    requires r.position < 4 && r.left < 64
    ensures ShiftAll(r, xs + ys) == ShiftAll(ShiftAll(r, xs), ys)
    decreases |xs|
  {
    if xs == [] {
      assert xs + ys == ys;
    } else {
      assert (xs + ys)[1..] == xs[1..] + ys;
      ShiftAllJoin(Shift(r, xs[0]), xs[1..], ys);
    }
  }

  lemma ThreeSextets(out: seq<Byte>, a: Byte, b: Byte, c: Byte)
    ensures ShiftAll(Registers(0, 0, 0, out), [First(a), Second(a, b), Third(b, c)]) ==
            Registers(3, Third(b, c) % 4, 0, out + [a, b])
  {
    hide First, Second, Third, Fourth;
    TwoSextets(out, a, b);
    SecondByte(a, b, c);
    assert [First(a), Second(a, b), Third(b, c)] == [First(a), Second(a, b)] + [Third(b, c)];
    ShiftAllJoin(Registers(0, 0, 0, out), [First(a), Second(a, b)], [Third(b, c)]);
    var r2 := Registers(2, Second(a, b) % 16, 0, out + [a]);
    assert ShiftAll(r2, [Third(b, c)]) == Shift(r2, Third(b, c)) by {
      assert [Third(b, c)][1..] == [];
    }
    assert out + [a] + [b] == out + [a, b];
  }

  lemma FourSextets(out: seq<Byte>, a: Byte, b: Byte, c: Byte)
    ensures ShiftAll(Registers(0, 0, 0, out), [First(a), Second(a, b), Third(b, c), Fourth(c)]) ==
            Registers(0, 0, 0, out + [a, b, c])
  {
    hide First, Second, Third, Fourth;
    ThreeSextets(out, a, b, c);
    ThirdByte(b, c);
    var three := [First(a), Second(a, b), Third(b, c)];
    assert [First(a), Second(a, b), Third(b, c), Fourth(c)] == three + [Fourth(c)];
    ShiftAllJoin(Registers(0, 0, 0, out), three, [Fourth(c)]);
    var r3 := Registers(3, Third(b, c) % 4, 0, out + [a, b]);
    assert ShiftAll(r3, [Fourth(c)]) == Shift(r3, Fourth(c)) by {
      assert [Fourth(c)][1..] == [];
    }
    assert out + [a, b] + [c] == out + [a, b, c];
  }

  /** What was written is read back, for every length modulo three. */
  lemma {:induction false} DecodeEncode(out: seq<Byte>, bytes: seq<Byte>)
    ensures DecodeFrom(Registers(0, 0, 0, out), Encode(bytes)) == Some(out + bytes)
    decreases |bytes|
  {
    hide First, Second, Third, Fourth, ShiftAll, Shift;
    var r := Registers(0, 0, 0, out);
    if bytes == [] {
      assert out + bytes == out;
    } else if |bytes| == 1 {
      var a := bytes[0];
      ShiftChars(r, [First(a), Second(a, 0)], "==");
      TwoSextets(out, a, 0);
      assert "=="[1..] == "=";
      assert bytes == [a];
    } else if |bytes| == 2 {
      var a, b := bytes[0], bytes[1];
      ShiftChars(r, [First(a), Second(a, b), Third(b, 0)], "=");
      ThreeSextets(out, a, b, 0);
      assert bytes == [a, b];
    } else {
      var a, b, c := bytes[0], bytes[1], bytes[2];
      ShiftChars(r, [First(a), Second(a, b), Third(b, c), Fourth(c)], Encode(bytes[3..]));
      FourSextets(out, a, b, c);
      DecodeEncode(out + [a, b, c], bytes[3..]);
      assert bytes == [a, b, c] + bytes[3..];
      assert out + [a, b, c] + bytes[3..] == out + bytes;
    }
  }

  /** An unpadded text whose last character is not a pad. */
  lemma PadStrip(body: string, pads: nat)
    requires body != "" ==> body[|body| - 1] != '='
    ensures Stripped(body + seq(pads, _ => '=')) == body
    decreases pads
  {
    var s := body + seq(pads, _ => '=');
    if pads == 0 {
      assert s == body;
    } else {
      assert s[..|s| - 1] == body + seq(pads - 1, _ => '=');
      PadStrip(body, pads - 1);
    }
  }

  /** The pads of an encoding are those that fill its last quad. */
  lemma {:induction false} EncodeShape(bytes: seq<Byte>) returns (body: string)
    ensures Encode(bytes) == Padded(body) && '=' !in body
    decreases |bytes|
  {
    hide First, Second, Third, Fourth, SextetChar, CharSextet, Padded;
    forall x: Sextet
      ensures SextetChar(x) != '='
    {
      SextetRoundTrip(x);
    }
    if bytes == [] {
      body := "";
      NoPads();
    } else if |bytes| == 1 {
      body := Chars([First(bytes[0]), Second(bytes[0], 0)]);
      PadsOf(body);
    } else if |bytes| == 2 {
      body := Chars([First(bytes[0]), Second(bytes[0], bytes[1]), Third(bytes[1], 0)]);
      PadsOf(body);
    } else {
      var quad := Chars([First(bytes[0]), Second(bytes[0], bytes[1]), Third(bytes[1], bytes[2]), Fourth(bytes[2])]);
      var rest := EncodeShape(bytes[3..]);
      body := quad + rest;
      PadsAfterQuad(quad, rest);
    }
  }

  lemma NoPads()
    ensures Padded("") == ""
  {
  }

  lemma PadsOf(body: string)
    ensures |body| == 2 ==> Padded(body) == body + "=="
    ensures |body| == 3 ==> Padded(body) == body + "="
  {
  }

  lemma PadsAfterQuad(quad: string, rest: string)
    requires |quad| == 4
    ensures Padded(quad + rest) == quad + Padded(rest)
  {
  }

  /** Dropping the padding and restoring it loses nothing. */
  lemma UnpaddedRoundTrip(bytes: seq<Byte>)
    ensures Decode(Padded(Stripped(Encode(bytes)))) == Some(bytes)
  {
    var body := EncodeShape(bytes);
    assert body != "" ==> body[|body| - 1] in body;
    PadStrip(body, (4 - |body| % 4) % 4);
    DecodeEncode([], bytes);
    assert [] + bytes == bytes;
  }
}
