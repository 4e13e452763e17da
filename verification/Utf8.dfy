/** UTF-8, the encoding under which canonical JSON is hashed and signed. */
module Utf8 {
  import opened Text

  function Bytes(c: char): (bytes: seq<Byte>)
    ensures 1 <= |bytes| <= 4
  {
    var n := c as int;
    if n < 0x80 then [n]
    else if n < 0x800 then [0xC0 + n / 64, 0x80 + n % 64]
    else if n < 0x1_0000 then [0xE0 + n / 4096, 0x80 + n / 64 % 64, 0x80 + n % 64]
    else [0xF0 + n / 262144, 0x80 + n / 4096 % 64, 0x80 + n / 64 % 64, 0x80 + n % 64]
  }

  function Encode(s: string): seq<Byte> {
    if s == "" then [] else Bytes(s[0]) + Encode(s[1..])
  }

  /** How many bytes a lead byte announces. */
  function Announced(lead: Byte): nat {
    if lead < 0x80 then 1 else if lead < 0xE0 then 2 else if lead < 0xF0 then 3 else 4
  }

  lemma LeadAnnounces(c: char)
    ensures |Bytes(c)| == Announced(Bytes(c)[0])
  {
  }

  lemma FromSextets(n: nat)
    ensures n == n / 64 * 64 + n % 64
    ensures n == (n / 4096 * 64 + n / 64 % 64) * 64 + n % 64
    ensures n == ((n / 262144 * 64 + n / 4096 % 64) * 64 + n / 64 % 64) * 64 + n % 64
  {
    assert n / 4096 == n / 64 / 64;
    assert n / 262144 == n / 4096 / 64;
  }

  lemma BytesInjective(c: char, d: char)
    requires Bytes(c) == Bytes(d)
    ensures c == d
  {
    FromSextets(c as int);
    FromSextets(d as int);
    LeadAnnounces(c);
    LeadAnnounces(d);
  }

  /** Different texts have different bytes. */
  lemma {:induction false} EncodeInjective(s: string, t: string)
    requires Encode(s) == Encode(t)
    ensures s == t
    decreases |s|
  {
    if s != "" && t != "" {
      var c, d := Bytes(s[0]), Bytes(t[0]);
      LeadAnnounces(s[0]);
      LeadAnnounces(t[0]);
      assert Encode(s)[0] == c[0] && Encode(t)[0] == d[0];
      assert |c| == |d|;
      assert c == Encode(s)[..|c|] && d == Encode(t)[..|d|];
      BytesInjective(s[0], t[0]);
      assert Encode(s[1..]) == Encode(s)[|c|..];
      assert Encode(t[1..]) == Encode(t)[|d|..];
      EncodeInjective(s[1..], t[1..]);
    }
  }

  /** The bytes of a text are those of its characters, one after another. */
  lemma {:induction false} EncodeConcat(s: string, t: string)
    ensures Encode(s + t) == Encode(s) + Encode(t)
  {
    if s == "" {
      assert s + t == t;
    } else {
      EncodeConcat(s[1..], t);
      assert (s + t)[1..] == s[1..] + t;
    }
  }

  /** Six bits of a continuation byte. */
  function Sextet(b: Byte): int { b as int - 0x80 }

  /** Read by the table of RFC 3629 section 3, the bytes of a character give its code point, in the
      shortest form. */
  lemma EncodesCodePoint(c: char)
    ensures var n, b := c as int, Encode([c]);
            && (forall i :: 1 <= i < |b| ==> 0 <= Sextet(b[i]) < 64)
            && (n < 0x80 ==> |b| == 1 && b[0] == n)
            && (0x80 <= n < 0x800 ==>
                  |b| == 2 && 0xC0 <= b[0] < 0xE0 && n == (b[0] as int - 0xC0) * 64 + Sextet(b[1]))
            && (0x800 <= n < 0x1_0000 ==>
                  && |b| == 3 && 0xE0 <= b[0] < 0xF0
                  && n == ((b[0] as int - 0xE0) * 64 + Sextet(b[1])) * 64 + Sextet(b[2]))
            && (0x1_0000 <= n ==>
                  && |b| == 4 && 0xF0 <= b[0] < 0xF8
                  && n == (((b[0] as int - 0xF0) * 64 + Sextet(b[1])) * 64 + Sextet(b[2])) * 64 + Sextet(b[3]))
  {
    FromSextets(c as int);
    assert Encode([c]) == Bytes(c);
  }
}
