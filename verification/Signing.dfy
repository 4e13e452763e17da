/** Outbound webhook signatures: the header a worker sends and the check a receiver makes.
    HMAC-SHA256 is left open; what is proved is about the bytes it is given. */
module Signing {
  import opened Wrappers
  import opened Text
  import opened Utf8
  import CanonicalText
  import Json

  /** HMAC-SHA256 in lower-case hexadecimal, as a function of the secret and the signed bytes. */
  type Mac = (string, seq<Byte>) -> string

  ghost predicate Hexadecimal(s: string) {
    forall c :: c in s ==> Json.IsDigit(c) || 'a' <= c <= 'f'
  }

  ghost predicate IsMac(mac: Mac) {
    forall secret, bytes :: Hexadecimal(mac(secret, bytes))
  }

  /** `timestamp or int(time.time())`: an absent or zero timestamp means now. */
  function Effective(timestamp: Option<int>, now: int): int {
    if timestamp.None? || timestamp.value == 0 then now else timestamp.value
  }

  function SignedBytes(timestamp: int, payload: seq<Byte>): seq<Byte> {
    Encode(Json.Decimal(timestamp) + ".") + payload
  }

  function Header(timestamp: int, digest: string): string {
    "t=" + Json.Decimal(timestamp) + ",v1=" + digest
  }

  function CreateSignature(mac: Mac, secret: string, payload: seq<Byte>, timestamp: Option<int>, now: int): string {
    var ts := Effective(timestamp, now);
    Header(ts, mac(secret, SignedBytes(ts, payload)))
  }

  // ------------------------------------------------- reading a header

  /** The index of the first `c`, or the length. */
  function IndexOf(s: string, c: char): (i: nat)
    ensures i <= |s|
    ensures i < |s| ==> s[i] == c
    ensures forall j :: 0 <= j < i ==> s[j] != c
  {
    if s == "" then 0 else if s[0] == c then 0 else 1 + IndexOf(s[1..], c)
  }

  function Split(s: string, c: char): seq<string>
    decreases |s|
  {
    var i := IndexOf(s, c);
    if i == |s| then [s] else [s[..i]] + Split(s[i + 1..], c)
  }

  /** The dict of the items, later ones winning; None when an item has no `=`. */
  function Fields(items: seq<string>): Option<map<string, string>> {
    if items == [] then Some(map[])
    else
      var last := items[|items| - 1];
      var fields :- Fields(items[..|items| - 1]);
      var i := IndexOf(last, '=');
      if i == |last| then None else Some(fields[last[..i] := last[i + 1..]])
  }

  /** A decimal integer with an optional sign. */
  function ParseInt(s: string): Option<int> {
    if s == "" then None
    else if s[0] == '-' || s[0] == '+' then
      if |s| == 1 then None
      else
        var n: int :- ParseNat(s[1..]);
        Some(if s[0] == '-' then -n else n)
    else
      var n :- ParseNat(s);
      Some(n)
  }

  function ParseNat(s: string): Option<nat> {
    if forall c :: c in s ==> Json.IsDigit(c) then Value(10, s) else None
  }

  datatype Check = Accepted | Refused | TypeError

  function VerifySignature(
    mac: Mac, secret: string, payload: seq<Byte>, header: string, tolerance: int, now: int): Check
  {
    match Fields(Split(header, ','))
    case None => Refused
    case Some(fields) =>
      if "t" !in fields || "v1" !in fields then Refused
      else match ParseInt(fields["t"])
        case None => Refused
        case Some(timestamp) =>
          if now - timestamp > tolerance || timestamp - now > tolerance then Refused
          else
            var expected := mac(secret, SignedBytes(Effective(Some(timestamp), now), payload));
            if !Ascii(fields["v1"]) then TypeError
            else if expected == fields["v1"] then Accepted
            else Refused
  }

  // ------------------------------------------------- round trip

  lemma DecimalText(n: int)
    ensures var s := Json.Decimal(n);
            && s != "" && (forall c :: c in s ==> Json.IsDigit(c) || c == '-')
            && ParseInt(s) == Some(n)
  {
    hide Json.Digits, Value;
    var digits := Json.Digits(if n < 0 then -n else n);
    assert digits[0] in digits;
    Json.DigitsValue(if n < 0 then -n else n);
    if n < 0 {
      assert ("-" + digits)[1..] == digits;
    }
  }

  lemma {:induction false} IndexOfAfter(a: string, c: char, b: string)
    requires c !in a
    ensures IndexOf(a + [c] + b, c) == |a|
  {
    if a == "" {
      assert (a + [c] + b)[0] == c;
    } else {
      assert a[0] in a;
      IndexOfAfter(a[1..], c, b);
      assert (a + [c] + b)[1..] == a[1..] + [c] + b;
    }
  }

  lemma NoIndex(s: string, c: char)
    requires c !in s
    ensures IndexOf(s, c) == |s|
  {
  }

  lemma SplitTwo(a: string, b: string)
    requires ',' !in a && ',' !in b
    ensures Split(a + [','] + b, ',') == [a, b]
  {
    var s := a + [','] + b;
    IndexOfAfter(a, ',', b);
    NoIndex(b, ',');
    assert s[..|a|] == a && s[|a| + 1..] == b;
    assert Split(b, ',') == [b];
  }

  /** A header that was written is read back as its timestamp and digest. */
  lemma HeaderFields(timestamp: int, digest: string)
    requires Hexadecimal(digest)
    ensures Fields(Split(Header(timestamp, digest), ',')) ==
            Some(map["t" := Json.Decimal(timestamp), "v1" := digest])
  {
    hide Split, Fields, Json.Decimal;
    DecimalText(timestamp);
    var number := Json.Decimal(timestamp);
    var a, b := "t=" + number, "v1=" + digest;
    assert Header(timestamp, digest) == a + [','] + b;
    SplitTwo(a, b);
    TwoFields("t", number, "v1", digest);
    assert "t" + ['='] + number == a && "v1" + ['='] + digest == b;
  }

  lemma TwoFields(k: string, v: string, l: string, w: string)
    requires '=' !in k && '=' !in l
    ensures Fields([k + ['='] + v, l + ['='] + w]) == Some(map[k := v][l := w])
  {
    var a, b := k + ['='] + v, l + ['='] + w;
    IndexOfAfter(k, '=', v);
    IndexOfAfter(l, '=', w);
    assert a[..|k|] == k && a[|k| + 1..] == v;
    assert b[..|l|] == l && b[|l| + 1..] == w;
    assert [a, b][..1] == [a];
    assert Fields([a]) == Some(map[k := v]);
  }

  /** The check accepts the header that was created exactly when its effective timestamp is within
      tolerance; for a zero timestamp, which the check replaces by its own clock, exactly when in
      addition the two digests agree. */
  lemma SignatureRoundTrip(
    mac: Mac, secret: string, payload: seq<Byte>, timestamp: Option<int>, created: int, tolerance: int, now: int)
    requires IsMac(mac)
    ensures var ts := Effective(timestamp, created);
            var header := CreateSignature(mac, secret, payload, timestamp, created);
            var check := VerifySignature(mac, secret, payload, header, tolerance, now);
            && (check.Accepted? <==>
                  && -tolerance <= now - ts <= tolerance
                  && (ts == 0 ==> mac(secret, SignedBytes(now, payload)) == mac(secret, SignedBytes(0, payload))))
            && !check.TypeError?
  {
    hide Split, Fields, Json.Decimal, SignedBytes, ParseInt;
    var ts := Effective(timestamp, created);
    var digest := mac(secret, SignedBytes(ts, payload));
    assert Hexadecimal(digest);
    HeaderFields(ts, digest);
    DecimalText(ts);
  }

  // ------------------------------------------------- binding

  lemma {:induction false} AsciiEncode(s: string)
    requires Ascii(s)
    ensures |Encode(s)| == |s|
    ensures forall i :: 0 <= i < |s| ==> Encode(s)[i] == s[i] as int
  {
    if s != "" {
      assert s[0] in s;
      assert Ascii(s[1..]) by {
        assert forall c :: c in s[1..] ==> c in s;
      }
      AsciiEncode(s[1..]);
      assert Bytes(s[0]) == [s[0] as int];
    }
  }

  lemma StampBytes(timestamp: int)
    ensures var number := Json.Decimal(timestamp);
            var stamp := Encode(number + ".");
            && |stamp| == |number| + 1 && stamp[|number|] == 46
            && forall i :: 0 <= i < |number| ==> stamp[i] != 46
  {
    hide Json.Decimal, Encode;
    DecimalText(timestamp);
    var number := Json.Decimal(timestamp);
    assert Ascii(number + ".");
    AsciiEncode(number + ".");
    forall i | 0 <= i < |number|
      ensures Encode(number + ".")[i] != 46
    {
      assert (number + ".")[i] == number[i] && number[i] in number;
    }
  }

  lemma FirstUnique(s: seq<Byte>, m: nat, n: nat, b: Byte)
    requires m < |s| && n < |s| && s[m] == b == s[n]
    requires (forall i :: 0 <= i < m ==> s[i] != b) && (forall i :: 0 <= i < n ==> s[i] != b)
    ensures m == n
  {
  }

  /** The signed bytes determine the timestamp and the payload. */
  lemma SignedBytesBind(ts: int, p: seq<Byte>, us: int, q: seq<Byte>)
    requires SignedBytes(ts, p) == SignedBytes(us, q)
    ensures ts == us && p == q
  {
    hide Json.Decimal, Encode;
    StampBytes(ts);
    StampBytes(us);
    var a, b := Encode(Json.Decimal(ts) + "."), Encode(Json.Decimal(us) + ".");
    var all := SignedBytes(ts, p);
    assert forall i :: 0 <= i < |a| ==> all[i] == a[i];
    assert forall i :: 0 <= i < |b| ==> all[i] == b[i];
    var m, n := |Json.Decimal(ts)|, |Json.Decimal(us)|;
    assert all[m] == a[m] == 46 && all[n] == b[n] == 46;
    FirstUnique(all, m, n, 46);
    assert a == all[..|a|] && b == all[..|b|];
    assert p == all[|a|..] && q == all[|b|..];
    EncodeInjective(Json.Decimal(ts) + ".", Json.Decimal(us) + ".");
    assert Json.Decimal(ts) == (Json.Decimal(ts) + ".")[..m];
    assert Json.Decimal(us) == (Json.Decimal(us) + ".")[..m];
    Json.PrintInjective(Json.Int(ts), Json.Int(us), true);
  }

  /** Two webhook bodies are signed over the same bytes exactly when their timestamps are equal and
      their payloads are the same JSON tree up to member order. */
  lemma SignedPayloadsBind(ts: int, v: Json.Json, us: int, w: Json.Json)
    requires Json.WellFormed(v) && Json.WellFormed(w)
    ensures SignedBytes(ts, Json.CanonicalBytes(v, true)) == SignedBytes(us, Json.CanonicalBytes(w, true)) <==>
            ts == us && Json.Same(v, w)
  {
    hide SignedBytes, Json.CanonicalBytes;
    Json.BytesDecideEquality(v, w, true);
    var p, q := Json.CanonicalBytes(v, true), Json.CanonicalBytes(w, true);
    if SignedBytes(ts, p) == SignedBytes(us, q) {
      SignedBytesBind(ts, p, us, q);
    }
  }

  /** A header accepted for another payload than it was made for shows two different signed texts with
      the same digest: the one it was made for and the one the check computes. */
  lemma OtherPayloadNeedsCollision(
    mac: Mac, secret: string, p: seq<Byte>, timestamp: Option<int>, created: int,
    q: seq<Byte>, tolerance: int, now: int)
    requires IsMac(mac) && p != q
    ensures var ts := Effective(timestamp, created);
            var made, checked := SignedBytes(ts, p), SignedBytes(Effective(Some(ts), now), q);
            var header := CreateSignature(mac, secret, p, timestamp, created);
            VerifySignature(mac, secret, q, header, tolerance, now).Accepted? ==>
              made != checked && mac(secret, made) == mac(secret, checked)
  {
    hide Split, Fields, Json.Decimal, SignedBytes, ParseInt;
    var ts := Effective(timestamp, created);
    var digest := mac(secret, SignedBytes(ts, p));
    assert Hexadecimal(digest);
    HeaderFields(ts, digest);
    DecimalText(ts);
    var us := Effective(Some(ts), now);
    if SignedBytes(ts, p) == SignedBytes(us, q) {
      SignedBytesBind(ts, p, us, q);
    }
  }

  // ------------------------------------------------- any header of named values

  /** What stands between two commas of a header. */
  datatype Item = Item(key: string, value: string) {
    function Text(): string { key + ['='] + value }
  }

  function HeaderText(items: seq<Item>): string
    requires items != []
  {
    if |items| == 1 then items[0].Text() else items[0].Text() + [','] + HeaderText(items[1..])
  }

  /** No comma inside an item and no equals sign inside a key. */
  ghost predicate Plain(items: seq<Item>) {
    forall i :: 0 <= i < |items| ==> ',' !in items[i].key && ',' !in items[i].value && '=' !in items[i].key
  }

  /** The value of the last item with this key. */
  ghost predicate Holds(items: seq<Item>, key: string, value: string) {
    exists i :: && 0 <= i < |items| && items[i] == Item(key, value)
                && forall j :: i < j < |items| ==> items[j].key != key
  }

  function Texts(items: seq<Item>): seq<string> {
    seq(|items|, i requires 0 <= i < |items| => items[i].Text())
  }

  lemma {:induction false} SplitHeader(items: seq<Item>)
    requires items != [] && Plain(items)
    ensures Split(HeaderText(items), ',') == Texts(items)
    decreases |items|
  {
    hide Split;
    var first := items[0].Text();
    SplitFirst(first, "");
    if |items| > 1 {
      SplitFirst(first, HeaderText(items[1..]));
      SplitHeader(items[1..]);
      assert Texts(items) == [first] + Texts(items[1..]);
    }
  }

  lemma SplitFirst(first: string, rest: string)
    requires ',' !in first
    ensures Split(first, ',') == [first]
    ensures Split(first + [','] + rest, ',') == [first] + Split(rest, ',')
  {
    NoIndex(first, ',');
    var s := first + [','] + rest;
    IndexOfAfter(first, ',', rest);
    assert s[..|first|] == first && s[|first| + 1..] == rest;
  }

  lemma {:induction false} FieldsHold(items: seq<Item>)
    requires Plain(items)
    ensures Fields(Texts(items)).Some?
    ensures forall k, v :: Holds(items, k, v) <==> k in Fields(Texts(items)).value && Fields(Texts(items)).value[k] == v
    decreases |items|
  {
    hide Holds;
    if items == [] {
      forall k, v
        ensures !Holds(items, k, v)
      {
        NothingHolds(k, v);
      }
    } else {
      var init, last := items[..|items| - 1], items[|items| - 1];
      FieldsHold(init);
      assert Texts(items)[..|items| - 1] == Texts(init);
      IndexOfAfter(last.key, '=', last.value);
      var text := last.Text();
      assert text[..|last.key|] == last.key && text[|last.key| + 1..] == last.value;
      assert Fields(Texts(items)).value == Fields(Texts(init)).value[last.key := last.value];
      forall k, v
        ensures Holds(items, k, v) <==> if k == last.key then v == last.value else Holds(init, k, v)
      {
        LastHolds(items, k, v);
      }
    }
  }

  lemma NothingHolds(key: string, value: string)
    ensures !Holds([], key, value)
  {
  }

  lemma LastHolds(items: seq<Item>, key: string, value: string)
    requires items != []
    ensures var last := items[|items| - 1];
            Holds(items, key, value) <==>
            if key == last.key then value == last.value else Holds(items[..|items| - 1], key, value)
  {
    var init, last := items[..|items| - 1], items[|items| - 1];
    if key == last.key && value == last.value {
      assert items[|items| - 1] == Item(key, value);
    }
    if i :| 0 <= i < |init| && init[i] == Item(key, value) && forall j :: i < j < |init| ==> init[j].key != key {
      assert items[i] == Item(key, value);
    }
    if i :| && 0 <= i < |items| && items[i] == Item(key, value)
            && forall j :: i < j < |items| ==> items[j].key != key {
      if i < |items| - 1 {
        assert init[i] == Item(key, value);
      }
    }
  }

  /** Of all headers of named values the check accepts those whose last `t` is an integer within tolerance
      and whose last `v1` is the digest of that integer in decimal, a full stop and the payload; for zero,
      of the clock in its place. */
  lemma AcceptedIff(
    mac: Mac, secret: string, payload: seq<Byte>, items: seq<Item>, tolerance: int, now: int,
    number: string, digest: string)
    requires IsMac(mac) && items != [] && Plain(items)
    requires Holds(items, "t", number) && Holds(items, "v1", digest)
    ensures VerifySignature(mac, secret, payload, HeaderText(items), tolerance, now).Accepted? <==>
            && ParseInt(number).Some?
            && var timestamp := ParseInt(number).value;
               && -tolerance <= now - timestamp <= tolerance
               && digest == mac(secret, Encode(Json.Decimal(if timestamp == 0 then now else timestamp)) +
                                        [46] + payload)
  {
    hide Split, Fields, Json.Decimal, ParseInt, Holds, Encode, HeaderText;
    SplitHeader(items);
    FieldsHold(items);
    if ParseInt(number).Some? {
      var timestamp := Effective(ParseInt(number), now);
      Stamp(timestamp);
      var bytes := SignedBytes(timestamp, payload);
      assert Hexadecimal(mac(secret, bytes));
      assert Encode(Json.Decimal(timestamp)) + [46] + payload == bytes;
    }
  }

  /** Without a `t` or a `v1` there is nothing to accept. */
  lemma RefusedWithout(
    mac: Mac, secret: string, payload: seq<Byte>, items: seq<Item>, tolerance: int, now: int, key: string)
    requires items != [] && Plain(items) && key in {"t", "v1"} && forall value :: !Holds(items, key, value)
    ensures VerifySignature(mac, secret, payload, HeaderText(items), tolerance, now) == Refused
  {
    hide Split, Fields, Json.Decimal, ParseInt, Holds, Encode, HeaderText;
    SplitHeader(items);
    FieldsHold(items);
    FieldPresent(items, key);
  }

  lemma FieldPresent(items: seq<Item>, key: string)
    requires Plain(items)
    ensures Fields(Texts(items)).Some?
    ensures key in Fields(Texts(items)).value ==> exists value :: Holds(items, key, value)
  {
    hide Fields, Holds;
    FieldsHold(items);
    if key in Fields(Texts(items)).value {
      assert Holds(items, key, Fields(Texts(items)).value[key]);
    }
  }

  lemma Stamp(timestamp: int)
    ensures Encode(Json.Decimal(timestamp) + ".") == Encode(Json.Decimal(timestamp)) + [46]
  {
    EncodeConcat(Json.Decimal(timestamp), ".");
    assert Encode(".") == [46];
  }

  /** The header that is sent: the time in decimal and the digest of the time, a full stop and the
      payload. */
  lemma HeaderIs(
    mac: Mac, secret: string, payload: seq<Byte>, timestamp: Option<int>, now: int, number: string)
    requires CanonicalText.WritesInt(number, if timestamp.Some? && timestamp.value != 0 then timestamp.value else now)
    ensures CreateSignature(mac, secret, payload, timestamp, now) ==
            "t=" + number + ",v1=" + mac(secret, Encode(number) + [46] + payload)
  {
    hide Json.Decimal, Encode, CanonicalText.WritesInt;
    var ts := Effective(timestamp, now);
    CanonicalText.IntWrittenOnce(number, ts);
    Stamp(ts);
    assert Encode(number) + [46] + payload == SignedBytes(ts, payload);
  }

  /** An integer is read from its decimal text. */
  lemma IntegerRead(number: string, n: int)
    requires CanonicalText.WritesInt(number, n)
    ensures ParseInt(number) == Some(n)
  {
    hide Json.Decimal, ParseInt, CanonicalText.WritesInt;
    CanonicalText.IntWrittenOnce(number, n);
    DecimalText(n);
  }
}
