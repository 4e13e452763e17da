/** Canonical JSON as Python's `json.dumps(sort_keys=True, separators=(",", ":"))` writes it,
    with or without ASCII escapes, and when two payloads get the same bytes
    (values of RFC 8259 sections 4 to 7; numbers are integers). */
module Json {
  import opened Wrappers
  import opened Text
  import Utf8

  datatype Json =
    | Null
    | Bool(b: bool)
    | Int(n: int)
    | Str(s: string)
    | Arr(items: seq<Json>)
    | Obj(members: seq<Member>)

  datatype Member = Member(key: string, value: Json)

  // ------------------------------------------------- strings

  /** The character escapes; `ascii` is `ensure_ascii`. */
  function Escape(c: char, ascii: bool): string {
    var n := c as int;
    if c == '"' then "\\\""
    else if c == '\\' then "\\\\"
    else if c == '\n' then "\\n"
    else if c == '\r' then "\\r"
    else if c == '\t' then "\\t"
    else if n == 12 then "\\f"
    else if n == 8 then "\\b"
    else if n < 0x20 then Unicode(n)
    else if !ascii || n <= 0x7E then [c]
    else if n < 0x1_0000 then Unicode(n)
    else Unicode(0xD800 + (n - 0x1_0000) / 1024) + Unicode(0xDC00 + (n - 0x1_0000) % 1024)
  }

  function Unicode(n: nat): string {
    "\\u" + Fixed(16, n, 4)
  }

  function EscapeAll(s: string, ascii: bool): string {
    if s == "" then "" else Escape(s[0], ascii) + EscapeAll(s[1..], ascii)
  }

  function Quote(s: string, ascii: bool): string {
    "\"" + (EscapeAll(s, ascii) + "\"")
  }

  // ------------------------------------------------- numbers

  function Digits(n: nat): (s: string)
    ensures s != "" && forall c :: c in s ==> '0' <= c <= '9'
  {
    if n < 10 then [DigitChar(n)] else Digits(n / 10) + [DigitChar(n % 10)]
  }

  function Decimal(n: int): string {
    if n < 0 then "-" + Digits(-n) else Digits(n)
  }

  // ------------------------------------------------- values

  function Print(v: Json, ascii: bool): string
    decreases v, 1
  {
    match v
    case Null => "null"
    case Bool(b) => if b then "true" else "false"
    case Int(n) => Decimal(n)
    case Str(s) => Quote(s, ascii)
    case Arr(items) => "[" + (PrintItems(items, true, ascii) + "]")
    case Obj(members) => "{" + (PrintMembers(members, true, ascii) + "}")
  }

  /** The items, each after a comma unless it is the first. */
  function PrintItems(items: seq<Json>, first: bool, ascii: bool): string
    decreases items, 0
  {
    if items == [] then ""
    else (if first then "" else ",") + (Print(items[0], ascii) + PrintItems(items[1..], false, ascii))
  }

  function PrintMembers(members: seq<Member>, first: bool, ascii: bool): string
    decreases members, 0
  {
    if members == [] then ""
    else
      (if first then "" else ",") +
      (Quote(members[0].key, ascii) + (":" + (Print(members[0].value, ascii) +
      PrintMembers(members[1..], false, ascii))))
  }

  // ------------------------------------------------- reading a text back

  predicate IsDigit(c: char) { '0' <= c <= '9' }

  /** One character of a string, escaped or not, and what follows. */
  function Unescape(s: string): (r: Option<(char, string)>)
    ensures r.Some? ==> |r.value.1| < |s|
  {
    if s == "" || s[0] == '"' then None
    else if s[0] != '\\' then Some((s[0], s[1..]))
    else if |s| < 2 then None
    else if s[1] == 'n' then Some(('\n', s[2..]))
    else if s[1] == 'r' then Some(('\r', s[2..]))
    else if s[1] == 't' then Some(('\t', s[2..]))
    else if s[1] == 'f' then Some((12 as char, s[2..]))
    else if s[1] == 'b' then Some((8 as char, s[2..]))
    else if s[1] != 'u' then Some((s[1], s[2..]))
    else
      var (n, s) :- TakeNumber(s[2..], 16, 4);
      if n < 0xD800 || 0xE000 <= n < 0x1_0000 then Some((n as char, s))
      else if n < 0xDC00 then
        var s :- Expect(s, "\\u");
        var (low, s) :- TakeNumber(s, 16, 4);
        if 0xDC00 <= low < 0xE000 then Some((((n - 0xD800) * 1024 + (low - 0xDC00) + 0x1_0000) as char, s)) else None
      else None
  }

  /** The rest of a string after its opening quote. */
  function ParseString(s: string): (r: Option<(string, string)>)
    ensures r.Some? ==> |r.value.1| < |s|
    decreases |s|
  {
    if s != "" && s[0] == '"' then Some(("", s[1..]))
    else
      var (c, s) :- Unescape(s);
      var (t, s) :- ParseString(s);
      Some(([c] + t, s))
  }

  /** The length of the leading run of digits. */
  function DigitRun(s: string): (n: nat)
    ensures n <= |s|
  {
    if s == "" || !IsDigit(s[0]) then 0 else 1 + DigitRun(s[1..])
  }

  /** A number without sign: no leading zero. */
  function ParseNat(s: string): (r: Option<(nat, string)>)
    ensures r.Some? ==> |r.value.1| < |s|
  {
    var n := DigitRun(s);
    if n == 0 || (n > 1 && s[0] == '0') then None
    else
      var value :- Value(10, s[..n]);
      Some((value, s[n..]))
  }

  /** A value of RFC 8259 section 3 without insignificant space, and what follows. */
  function ParseValue(s: string): (r: Option<(Json, string)>)
    ensures r.Some? ==> |r.value.1| < |s|
    decreases |s|, 0
  {
    if "null" <= s then Some((Null, s[4..]))
    else if "true" <= s then Some((Bool(true), s[4..]))
    else if "false" <= s then Some((Bool(false), s[5..]))
    else if s == "" then None
    else if s[0] == '"' then
      var (t, s) :- ParseString(s[1..]);
      Some((Str(t), s))
    else if s[0] == '-' then
      var (n, s) :- ParseNat(s[1..]);
      Some((Int(0 - n as int), s))
    else if IsDigit(s[0]) then
      var (n, s) :- ParseNat(s);
      Some((Int(n), s))
    else if s[0] == '[' then
      var (items, s) :- ParseItems(s[1..], true);
      Some((Arr(items), s))
    else if s[0] == '{' then
      var (members, s) :- ParseMembers(s[1..], true);
      Some((Obj(members), s))
    else None
  }

  /** The rest of an array; every item but the first follows a comma. */
  function ParseItems(s: string, first: bool): (r: Option<(seq<Json>, string)>)
    ensures r.Some? ==> |r.value.1| < |s|
    decreases |s|, 1
  {
    if s == "" then None
    else if s[0] == ']' then Some(([], s[1..]))
    else
      var s :- if first then Some(s) else Expect(s, ",");
      var (item, s) :- ParseValue(s);
      var (items, s) :- ParseItems(s, false);
      Some(([item] + items, s))
  }

  function ParseMembers(s: string, first: bool): (r: Option<(seq<Member>, string)>)
    ensures r.Some? ==> |r.value.1| < |s|
    decreases |s|, 1
  {
    if s == "" then None
    else if s[0] == '}' then Some(([], s[1..]))
    else
      var s :- if first then Some(s) else Expect(s, ",");
      var s :- Expect(s, "\"");
      var (key, s) :- ParseString(s);
      var s :- Expect(s, ":");
      var (value, s) :- ParseValue(s);
      var (members, s) :- ParseMembers(s, false);
      Some(([Member(key, value)] + members, s))
  }

  /** A whole text. */
  function Parse(s: string): Option<Json> {
    var (v, rest) :- ParseValue(s);
    if rest == "" then Some(v) else None
  }

  // ------------------------------------------------- what is printed is read back

  /** What may follow a value: nothing, or a character that ends it. */
  predicate Stops(rest: string) {
    rest == "" || rest[0] in ",:]}"
  }

  lemma HexRange()
    ensures Pow(16, 4) == 0x1_0000
  {
  }

  lemma UnescapePair(n: nat, rest: string)
    requires 0x1_0000 <= n < 0x11_0000
    ensures var v := n - 0x1_0000;
            Unescape(Unicode(0xD800 + v / 1024) + (Unicode(0xDC00 + v % 1024) + rest)) == Some((n as char, rest))
  {
    hide TakeNumber, Expect, Fixed, Pow;
    HexRange();
    var v := n - 0x1_0000;
    var high, low := 0xD800 + v / 1024, 0xDC00 + v % 1024;
    var s2 := Fixed(16, low, 4) + rest;
    var s1 := "\\u" + s2;
    var s := Unicode(high) + (Unicode(low) + rest);
    assert Unicode(low) + rest == s1;
    assert s[0] == '\\' && s[1] == 'u' && s[2..] == Fixed(16, high, 4) + s1;
    TakeFixed(16, high, 4, s1);
    ExpectLiteral("\\u", s2);
    TakeFixed(16, low, 4, rest);
  }

  lemma UnescapeUnicode(n: nat, rest: string)
    requires n < 0xD800 || 0xE000 <= n < 0x1_0000
    ensures Unescape(Unicode(n) + rest) == Some((n as char, rest))
  {
    hide TakeNumber, Fixed, Pow;
    HexRange();
    var s := Unicode(n) + rest;
    assert s[0] == '\\' && s[1] == 'u' && s[2..] == Fixed(16, n, 4) + rest;
    TakeFixed(16, n, 4, rest);
  }

  lemma UnescapeEscape(c: char, ascii: bool, rest: string)
    ensures Unescape(Escape(c, ascii) + rest) == Some((c, rest))
    ensures Escape(c, ascii) != ""
  {
    hide TakeNumber, Expect, Fixed;
    var n := c as int;
    var s := Escape(c, ascii) + rest;
    if c == '"' || c == '\\' || c == '\n' || c == '\r' || c == '\t' || n == 12 || n == 8 {
      assert s[2..] == rest;
    } else if 0x20 <= n && (!ascii || n <= 0x7E) {
      assert s[1..] == rest;
    } else if n < 0x1_0000 {
      UnescapeUnicode(n, rest);
    } else {
      UnescapePair(n, rest);
      assert s == Unicode(0xD800 + (n - 0x1_0000) / 1024) + (Unicode(0xDC00 + (n - 0x1_0000) % 1024) + rest);
    }
  }

  lemma {:induction false} StringRoundTrip(s: string, ascii: bool, rest: string)
    ensures ParseString(EscapeAll(s, ascii) + ("\"" + rest)) == Some((s, rest))
  {
    hide Escape, Unescape;
    if s == "" {
      assert EscapeAll(s, ascii) + ("\"" + rest) == "\"" + rest;
    } else {
      var tail := EscapeAll(s[1..], ascii) + ("\"" + rest);
      assert EscapeAll(s, ascii) + ("\"" + rest) == Escape(s[0], ascii) + tail;
      UnescapeEscape(s[0], ascii, tail);
      QuoteEnds(Escape(s[0], ascii) + tail);
      StringRoundTrip(s[1..], ascii, rest);
      assert s == [s[0]] + s[1..];
    }
  }

  lemma QuoteEnds(s: string)
    ensures s != "" && s[0] == '"' ==> Unescape(s).None?
  {
  }

  lemma {:induction false} DigitsValue(n: nat)
    ensures Value(10, Digits(n)) == Some(n)
    ensures n > 0 ==> Digits(n)[0] != '0'
  {
    if n >= 10 {
      DigitsValue(n / 10);
      ValueAppend(10, Digits(n / 10), n % 10);
    } else {
      ValueAppend(10, "", n);
      assert "" + [DigitChar(n)] == [DigitChar(n)];
    }
  }

  lemma {:induction false} RunOfDigits(s: string, rest: string)
    requires (forall c :: c in s ==> IsDigit(c)) && Stops(rest)
    ensures DigitRun(s + rest) == |s|
  {
    if s == "" {
      assert s + rest == rest;
    } else {
      assert s[0] in s;
      assert (s + rest)[1..] == s[1..] + rest;
      RunOfDigits(s[1..], rest);
    }
  }

  lemma NatRoundTrip(n: nat, rest: string)
    requires Stops(rest)
    ensures ParseNat(Digits(n) + rest) == Some((n, rest))
  {
    hide Value;
    var s := Digits(n);
    DigitsValue(n);
    RunOfDigits(s, rest);
    assert n == 0 ==> |s| == 1;
    assert (s + rest)[..|s|] == s && (s + rest)[|s|..] == rest;
  }

  lemma WordsRead(rest: string)
    ensures ParseValue("null" + rest) == Some((Null, rest))
    ensures ParseValue("true" + rest) == Some((Bool(true), rest))
    ensures ParseValue("false" + rest) == Some((Bool(false), rest))
  {
    hide ParseNat, ParseString, ParseItems, ParseMembers;
    assert ("null" + rest)[4..] == rest && ("true" + rest)[4..] == rest && ("false" + rest)[5..] == rest;
    assert ("true" + rest)[0] == 't' && ("false" + rest)[0] == 'f';
  }

  /** Every other value is read by its first character. */
  lemma FirstCharDecides(c: char, s: string)
    requires c !in "ntf"
    ensures c == '"' && ParseString(s).Some? ==>
              ParseValue([c] + s) == Some((Str(ParseString(s).value.0), ParseString(s).value.1))
    ensures c == '[' && ParseItems(s, true).Some? ==>
              ParseValue([c] + s) == Some((Arr(ParseItems(s, true).value.0), ParseItems(s, true).value.1))
    ensures c == '{' && ParseMembers(s, true).Some? ==>
              ParseValue([c] + s) == Some((Obj(ParseMembers(s, true).value.0), ParseMembers(s, true).value.1))
    ensures c == '-' && ParseNat(s).Some? ==>
              ParseValue([c] + s) == Some((Int(0 - ParseNat(s).value.0 as int), ParseNat(s).value.1))
    ensures IsDigit(c) && ParseNat([c] + s).Some? ==>
              ParseValue([c] + s) == Some((Int(ParseNat([c] + s).value.0), ParseNat([c] + s).value.1))
  {
    hide ParseNat, ParseString, ParseItems, ParseMembers;
    var t := [c] + s;
    assert t[0] == c && t[1..] == s;
    assert !("null" <= t) && !("true" <= t) && !("false" <= t);
  }

  lemma IntRoundTrip(n: int, rest: string)
    requires Stops(rest)
    ensures ParseValue(Decimal(n) + rest) == Some((Int(n), rest))
  {
    hide Digits, ParseNat, ParseValue;
    var digits := Digits(if n < 0 then -n else n);
    NatRoundTrip(if n < 0 then -n else n, rest);
    assert digits[0] in digits;
    if n < 0 {
      FirstCharDecides('-', digits + rest);
      assert Decimal(n) + rest == ['-'] + (digits + rest);
    } else {
      FirstCharDecides(digits[0], digits[1..] + rest);
      assert digits + rest == [digits[0]] + (digits[1..] + rest);
    }
  }

  /** Every printed value, followed by something that ends it, is read back with what follows. */
  lemma {:induction false} PrintRoundTrip(v: Json, ascii: bool, rest: string)
    requires Stops(rest)
    ensures ParseValue(Print(v, ascii) + rest) == Some((v, rest))
    decreases v, 1
  {
    hide Decimal, EscapeAll, PrintItems, PrintMembers, ParseValue, ParseString, ParseItems, ParseMembers;
    var s := Print(v, ascii) + rest;
    match v
    case Null => WordsRead(rest);
    case Bool(b) => WordsRead(rest);
    case Int(n) => IntRoundTrip(n, rest);
    case Str(t) =>
      StringRoundTrip(t, ascii, rest);
      FirstCharDecides('"', EscapeAll(t, ascii) + ("\"" + rest));
      assert s == ['"'] + (EscapeAll(t, ascii) + ("\"" + rest));
    case Arr(items) =>
      ItemsRoundTrip(items, true, ascii, rest);
      FirstCharDecides('[', PrintItems(items, true, ascii) + ("]" + rest));
      assert s == ['['] + (PrintItems(items, true, ascii) + ("]" + rest));
    case Obj(members) =>
      MembersRoundTrip(members, true, ascii, rest);
      FirstCharDecides('{', PrintMembers(members, true, ascii) + ("}" + rest));
      assert s == ['{'] + (PrintMembers(members, true, ascii) + ("}" + rest));
  }

  /** A printed value begins like one, and not like the end of an array. */
  lemma ValueStarts(v: Json, ascii: bool)
    ensures Print(v, ascii) != "" && Print(v, ascii)[0] != ']'
  {
    hide Digits, PrintItems, PrintMembers, EscapeAll;
    if v.Int? {
      var digits := Digits(if v.n < 0 then -v.n else v.n);
      assert digits[0] in digits;
    }
  }

  /** One item, or the end of the array. */
  lemma ItemsStep(s: string, first: bool, item: Json, more: string, items: seq<Json>, rest: string)
    requires s != "" && s[0] != ']'
    requires ParseValue(s) == Some((item, more)) && ParseItems(more, false) == Some((items, rest))
    ensures ParseItems((if first then "" else ",") + s, first) == Some(([item] + items, rest))
    ensures ParseItems("]" + rest, first) == Some(([], rest))
  {
    hide ParseValue;
    assert first ==> "" + s == s;
    assert !first ==> ("," + s)[1..] == s;
    assert ("]" + rest)[1..] == rest;
  }

  lemma {:induction false} ItemsRoundTrip(items: seq<Json>, first: bool, ascii: bool, rest: string)
    ensures ParseItems(PrintItems(items, first, ascii) + ("]" + rest), first) == Some((items, rest))
    ensures !first ==> Stops(PrintItems(items, first, ascii) + ("]" + rest))
    decreases items, 0
  {
    hide Print, ParseValue;
    var s := PrintItems(items, first, ascii) + ("]" + rest);
    if items == [] {
      assert s == "]" + rest;
    } else {
      hide ParseItems, PrintItems;
      var more := PrintItems(items[1..], false, ascii) + ("]" + rest);
      ItemsRoundTrip(items[1..], false, ascii, rest);
      PrintRoundTrip(items[0], ascii, more);
      ValueStarts(items[0], ascii);
      ItemsStep(Print(items[0], ascii) + more, first, items[0], more, items[1..], rest);
      ItemsText(items, first, ascii, rest);
      assert items == [items[0]] + items[1..];
    }
  }

  lemma ItemsText(items: seq<Json>, first: bool, ascii: bool, rest: string)
    requires items != []
    ensures PrintItems(items, first, ascii) + ("]" + rest) ==
            (if first then "" else ",") +
            (Print(items[0], ascii) + (PrintItems(items[1..], false, ascii) + ("]" + rest)))
  {
    hide Print;
    var value, more, end := Print(items[0], ascii), PrintItems(items[1..], false, ascii), "]" + rest;
    Associate(value, more, end);
    Associate(if first then "" else ",", value + more, end);
  }

  lemma MembersStep(s: string, first: bool, m: Member, value: string, more: string, members: seq<Member>, rest: string)
    requires ParseString(s) == Some((m.key, ":" + value)) && ParseValue(value) == Some((m.value, more))
    requires ParseMembers(more, false) == Some((members, rest))
    ensures ParseMembers((if first then "" else ",") + ("\"" + s), first) == Some(([m] + members, rest))
  {
    hide ParseValue, ParseString;
    assert ("\"" + s)[1..] == s && (":" + value)[1..] == value;
    assert first ==> "" + ("\"" + s) == "\"" + s;
    assert !first ==> ("," + ("\"" + s))[1..] == "\"" + s;
  }

  lemma {:induction false} MembersRoundTrip(members: seq<Member>, first: bool, ascii: bool, rest: string)
    ensures ParseMembers(PrintMembers(members, first, ascii) + ("}" + rest), first) == Some((members, rest))
    ensures !first ==> Stops(PrintMembers(members, first, ascii) + ("}" + rest))
    decreases members, 0
  {
    hide Print, ParseValue, EscapeAll, ParseString;
    var s := PrintMembers(members, first, ascii) + ("}" + rest);
    if members == [] {
      assert s == "}" + rest;
    } else {
      hide ParseMembers, PrintMembers;
      var m, more := members[0], PrintMembers(members[1..], false, ascii) + ("}" + rest);
      var value := Print(m.value, ascii) + more;
      MembersRoundTrip(members[1..], false, ascii, rest);
      PrintRoundTrip(m.value, ascii, more);
      StringRoundTrip(m.key, ascii, ":" + value);
      MembersStep(EscapeAll(m.key, ascii) + ("\"" + (":" + value)), first, m, value, more, members[1..], rest);
      MemberText(members, first, ascii, rest);
      assert members == [m] + members[1..];
    }
  }

  lemma MemberText(members: seq<Member>, first: bool, ascii: bool, rest: string)
    requires members != []
    ensures var m := members[0];
            var value := Print(m.value, ascii) + (PrintMembers(members[1..], false, ascii) + ("}" + rest));
            PrintMembers(members, first, ascii) + ("}" + rest) ==
            (if first then "" else ",") + ("\"" + (EscapeAll(m.key, ascii) + ("\"" + (":" + value))))
  {
    hide Print, EscapeAll;
    var m, more := members[0], PrintMembers(members[1..], false, ascii);
    var value, key, end := Print(m.value, ascii), EscapeAll(m.key, ascii), "}" + rest;
    Associate(value, more, end);
    Associate(":", value + more, end);
    Associate("\"" + (key + "\""), ":" + (value + more), end);
    Associate(if first then "" else ",", Quote(m.key, ascii) + (":" + (value + more)), end);
    Associate(key, "\"", ":" + (value + (more + end)));
    Associate("\"", key + "\"", ":" + (value + (more + end)));
  }

  lemma Associate(a: string, b: string, c: string)
    ensures (a + b) + c == a + (b + c)
  {
  }

  /** The printed text determines the value. */
  lemma PrintInjective(a: Json, b: Json, ascii: bool)
    ensures Print(a, ascii) == Print(b, ascii) <==> a == b
  {
    hide Print, ParseValue;
    assert Print(a, ascii) + "" == Print(a, ascii) && Print(b, ascii) + "" == Print(b, ascii);
    PrintRoundTrip(a, ascii, "");
    PrintRoundTrip(b, ascii, "");
  }

  // ------------------------------------------------- sorting keys

  /** Python's string order: by code point. */
  predicate KeyLess(a: string, b: string)
    decreases |a|
  {
    if b == "" then false
    else if a == "" then true
    else a[0] < b[0] || (a[0] == b[0] && KeyLess(a[1..], b[1..]))
  }

  lemma {:induction false} KeyOrder(a: string, b: string)
    ensures a == b <==> !KeyLess(a, b) && !KeyLess(b, a)
    ensures !(KeyLess(a, b) && KeyLess(b, a))
    decreases |a|
  {
    if a != "" && b != "" {
      KeyOrder(a[1..], b[1..]);
      assert a == [a[0]] + a[1..] && b == [b[0]] + b[1..];
    }
  }

  lemma {:induction false} KeyTransitive(a: string, b: string, c: string)
    requires KeyLess(a, b) && KeyLess(b, c)
    ensures KeyLess(a, c)
    decreases |a|
  {
    if a != "" && b[0] == a[0] && c[0] == a[0] {
      KeyTransitive(a[1..], b[1..], c[1..]);
    }
  }

  function InsertMember(m: Member, sorted: seq<Member>): seq<Member> {
    if sorted == [] || KeyLess(m.key, sorted[0].key) then [m] + sorted
    else [sorted[0]] + InsertMember(m, sorted[1..])
  }

  /** `sort_keys`. */
  function SortMembers(members: seq<Member>): seq<Member> {
    if members == [] then [] else InsertMember(members[0], SortMembers(members[1..]))
  }

  ghost predicate DistinctKeys(members: seq<Member>) {
    forall i, j :: 0 <= i < j < |members| ==> members[i].key != members[j].key
  }

  ghost predicate SortedKeys(members: seq<Member>) {
    forall i, j :: 0 <= i < j < |members| ==> KeyLess(members[i].key, members[j].key)
  }

  lemma {:induction false} InsertHolds(m: Member, sorted: seq<Member>, x: Member)
    ensures x in InsertMember(m, sorted) <==> x == m || x in sorted
    decreases |sorted|
  {
    if !(sorted == [] || KeyLess(m.key, sorted[0].key)) {
      InsertHolds(m, sorted[1..], x);
      assert sorted == [sorted[0]] + sorted[1..];
    }
  }

  lemma {:induction false} SortHolds(members: seq<Member>, x: Member)
    ensures x in SortMembers(members) <==> x in members
  {
    if members != [] {
      SortHolds(members[1..], x);
      InsertHolds(members[0], SortMembers(members[1..]), x);
      assert members == [members[0]] + members[1..];
    }
  }

  lemma {:induction false} InsertSorts(m: Member, sorted: seq<Member>)
    requires SortedKeys(sorted) && forall x :: x in sorted ==> x.key != m.key
    ensures SortedKeys(InsertMember(m, sorted))
    decreases |sorted|
  {
    hide KeyLess;
    if sorted != [] {
      var head := sorted[0];
      assert head in sorted;
      KeyOrder(m.key, head.key);
      if KeyLess(m.key, head.key) {
        forall i | 0 < i < |sorted|
          ensures KeyLess(m.key, sorted[i].key)
        {
          KeyTransitive(m.key, head.key, sorted[i].key);
        }
      } else {
        InsertSorts(m, sorted[1..]);
        var rest := InsertMember(m, sorted[1..]);
        forall j | 0 <= j < |rest|
          ensures KeyLess(head.key, rest[j].key)
        {
          InsertHolds(m, sorted[1..], rest[j]);
        }
      }
    }
  }

  lemma {:induction false} SortSorts(members: seq<Member>)
    requires DistinctKeys(members)
    ensures SortedKeys(SortMembers(members))
  {
    if members != [] {
      SortSorts(members[1..]);
      forall x | x in SortMembers(members[1..])
        ensures x.key != members[0].key
      {
        SortHolds(members[1..], x);
      }
      InsertSorts(members[0], SortMembers(members[1..]));
    }
  }

  lemma HeadHolds(s: seq<Member>)
    ensures s == [] || s[0] in s
  {
  }

  lemma {:induction false} SortedUnique(a: seq<Member>, b: seq<Member>)
    requires SortedKeys(a) && SortedKeys(b)
    requires forall x :: x in a <==> x in b
    ensures a == b
    decreases |a|
  {
    hide KeyLess;
    if a == [] {
      HeadHolds(b);
    } else {
      assert a[0] in a;
      assert b != [] && b[0] in b;
      var i :| 0 <= i < |b| && b[i] == a[0];
      var j :| 0 <= j < |a| && a[j] == b[0];
      KeyOrder(a[0].key, b[0].key);
      assert a[0] == b[0];
      forall x
        ensures x in a[1..] <==> x in b[1..]
      {
        TailHolds(a, x);
        TailHolds(b, x);
      }
      SortedUnique(a[1..], b[1..]);
      assert a == [a[0]] + a[1..] && b == [b[0]] + b[1..];
    }
  }

  lemma TailHolds(s: seq<Member>, x: Member)
    requires s != [] && SortedKeys(s)
    ensures x in s[1..] <==> x in s && x != s[0]
  {
    KeyOrder(s[0].key, s[0].key);
    assert s == [s[0]] + s[1..];
    if x in s[1..] {
      var i :| 0 <= i < |s[1..]| && s[1..][i] == x;
      assert KeyLess(s[0].key, s[i + 1].key);
    }
  }

  // ------------------------------------------------- canonical form and equality up to member order

  /** A Python dict: keys are distinct, at every depth. */
  ghost predicate WellFormed(v: Json) {
    match v
    case Arr(items) => forall i :: 0 <= i < |items| ==> WellFormed(items[i])
    case Obj(members) =>
      DistinctKeys(members) && forall i :: 0 <= i < |members| ==> WellFormed(members[i].value)
    case _ => true
  }

  ghost predicate HasKey(ns: seq<Member>, key: string) {
    exists j :: 0 <= j < |ns| && ns[j].key == key
  }

  ghost predicate KeysWithin(ms: seq<Member>, ns: seq<Member>) {
    forall i :: 0 <= i < |ms| ==> HasKey(ns, ms[i].key)
  }

  /** The same tree up to the order of object members, at every depth. */
  ghost predicate Same(a: Json, b: Json) {
    match (a, b)
    case (Arr(xs), Arr(ys)) => |xs| == |ys| && forall i :: 0 <= i < |xs| ==> Same(xs[i], ys[i])
    case (Obj(ms), Obj(ns)) =>
      && KeysWithin(ms, ns) && KeysWithin(ns, ms)
      && (forall i, j :: 0 <= i < |ms| && 0 <= j < |ns| && ms[i].key == ns[j].key ==> Same(ms[i].value, ns[j].value))
    case _ => a == b
  }

  /** Every object's members in key order. */
  function Canonical(v: Json): Json {
    match v
    case Arr(items) => Arr(seq(|items|, i requires 0 <= i < |items| => Canonical(items[i])))
    case Obj(members) => Obj(SortMembers(CanonicalMembers(members)))
    case _ => v
  }

  function CanonicalMembers(members: seq<Member>): (ms: seq<Member>)
    ensures |ms| == |members|
  {
    seq(|members|, i requires 0 <= i < |members| => Member(members[i].key, Canonical(members[i].value)))
  }

  lemma CanonicalKeysDistinct(members: seq<Member>)
    requires DistinctKeys(members)
    ensures DistinctKeys(CanonicalMembers(members))
  {
  }

  /** Sorted canonical members are equal exactly when the members are, as sets. */
  lemma SortedMembersEqual(ms: seq<Member>, ns: seq<Member>)
    requires DistinctKeys(ms) && DistinctKeys(ns)
    ensures SortMembers(ms) == SortMembers(ns) <==> forall x :: x in ms <==> x in ns
  {
    hide SortMembers;
    forall x
      ensures x in SortMembers(ms) <==> x in ms
      ensures x in SortMembers(ns) <==> x in ns
    {
      SortHolds(ms, x);
      SortHolds(ns, x);
    }
    SortSorts(ms);
    SortSorts(ns);
    if forall x :: x in ms <==> x in ns {
      SortedUnique(SortMembers(ms), SortMembers(ns));
    }
  }

  /** Equal canonical members match each member with one of the same key and canonical value. */
  lemma MatchingMember(ms: seq<Member>, ns: seq<Member>, i: nat) returns (j: nat)
    requires i < |ms| && forall x :: x in CanonicalMembers(ms) ==> x in CanonicalMembers(ns)
    ensures j < |ns| && ns[j].key == ms[i].key && Canonical(ns[j].value) == Canonical(ms[i].value)
  {
    hide Canonical;
    var x := CanonicalMembers(ms)[i];
    assert x in CanonicalMembers(ns);
    j :| 0 <= j < |ns| && CanonicalMembers(ns)[j] == x;
  }

  /** Members with equal keys have equal canonical values. */
  ghost predicate Aligned(ms: seq<Member>, ns: seq<Member>) {
    forall i, j :: 0 <= i < |ms| && 0 <= j < |ns| && ms[i].key == ns[j].key ==>
                     Canonical(ms[i].value) == Canonical(ns[j].value)
  }

  lemma {:induction false} CanonicalIffSame(a: Json, b: Json)
    requires WellFormed(a) && WellFormed(b)
    ensures Canonical(a) == Canonical(b) <==> Same(a, b)
    decreases a
  {
    hide SortMembers, CanonicalMembers, KeysWithin, DistinctKeys;
    if a.Arr? && b.Arr? {
      var xs, ys := a.items, b.items;
      forall i | 0 <= i < |xs| && i < |ys|
        ensures Canonical(xs[i]) == Canonical(ys[i]) <==> Same(xs[i], ys[i])
      {
        CanonicalIffSame(xs[i], ys[i]);
      }
      ItemwiseEqual(xs, ys);
    } else if a.Obj? && b.Obj? {
      var ms, ns := a.members, b.members;
      forall i, j | 0 <= i < |ms| && 0 <= j < |ns|
        ensures Canonical(ms[i].value) == Canonical(ns[j].value) <==> Same(ms[i].value, ns[j].value)
      {
        CanonicalIffSame(ms[i].value, ns[j].value);
      }
      MemberwiseEqual(ms, ns);
    }
  }

  lemma MemberwiseEqual(ms: seq<Member>, ns: seq<Member>)
    requires DistinctKeys(ms) && DistinctKeys(ns)
    ensures Canonical(Obj(ms)) == Canonical(Obj(ns)) <==>
            KeysWithin(ms, ns) && KeysWithin(ns, ms) && Aligned(ms, ns)
  {
    hide SortMembers, CanonicalMembers, KeysWithin, Aligned, DistinctKeys;
    CanonicalKeysDistinct(ms);
    CanonicalKeysDistinct(ns);
    SortedMembersEqual(CanonicalMembers(ms), CanonicalMembers(ns));
    if forall x :: x in CanonicalMembers(ms) <==> x in CanonicalMembers(ns) {
      WithinFromSets(ms, ns);
      WithinFromSets(ns, ms);
    }
    if KeysWithin(ms, ns) && KeysWithin(ns, ms) && Aligned(ms, ns) {
      SetsFromWithin(ms, ns);
      AlignedBack(ms, ns);
      SetsFromWithin(ns, ms);
    }
  }

  lemma AlignedBack(ms: seq<Member>, ns: seq<Member>)
    requires Aligned(ms, ns)
    ensures Aligned(ns, ms)
  {
  }

  lemma WithinFromSets(ms: seq<Member>, ns: seq<Member>)
    requires DistinctKeys(ns)
    requires forall x :: x in CanonicalMembers(ms) ==> x in CanonicalMembers(ns)
    ensures KeysWithin(ms, ns) && Aligned(ms, ns)
  {
    hide Canonical, CanonicalMembers;
    forall i | 0 <= i < |ms|
      ensures HasKey(ns, ms[i].key)
    {
      var j := MatchingMember(ms, ns, i);
    }
    forall i, j | 0 <= i < |ms| && 0 <= j < |ns| && ms[i].key == ns[j].key
      ensures Canonical(ms[i].value) == Canonical(ns[j].value)
    {
      var k := MatchingMember(ms, ns, i);
      assert k == j;
    }
  }

  lemma SetsFromWithin(ms: seq<Member>, ns: seq<Member>)
    requires KeysWithin(ms, ns) && Aligned(ms, ns)
    ensures forall x :: x in CanonicalMembers(ms) ==> x in CanonicalMembers(ns)
  {
    hide Canonical;
    forall x | x in CanonicalMembers(ms)
      ensures x in CanonicalMembers(ns)
    {
      var i :| 0 <= i < |ms| && CanonicalMembers(ms)[i] == x;
      assert HasKey(ns, ms[i].key);
      var j :| 0 <= j < |ns| && ns[j].key == ms[i].key;
      assert CanonicalMembers(ns)[j] == x;
    }
  }

  lemma ItemwiseEqual(xs: seq<Json>, ys: seq<Json>)
    ensures Canonical(Arr(xs)) == Canonical(Arr(ys)) <==>
            |xs| == |ys| && forall i :: 0 <= i < |xs| ==> Canonical(xs[i]) == Canonical(ys[i])
  {
    var us, vs := Canonical(Arr(xs)).items, Canonical(Arr(ys)).items;
    assert |us| == |xs| && forall i :: 0 <= i < |xs| ==> us[i] == Canonical(xs[i]);
    assert |vs| == |ys| && forall i :: 0 <= i < |ys| ==> vs[i] == Canonical(ys[i]);
    assert Canonical(Arr(xs)) == Arr(us) && Canonical(Arr(ys)) == Arr(vs);
  }

  lemma {:induction false} CanonicalIsSame(v: Json)
    requires WellFormed(v)
    ensures Same(v, Canonical(v))
    decreases v
  {
    hide SortMembers, CanonicalMembers, KeysWithin, DistinctKeys;
    match v
    case Arr(items) =>
      forall i | 0 <= i < |items|
        ensures Same(items[i], Canonical(items[i]))
      {
        CanonicalIsSame(items[i]);
      }
    case Obj(members) =>
      forall i | 0 <= i < |members|
        ensures Same(members[i].value, Canonical(members[i].value))
      {
        CanonicalIsSame(members[i].value);
      }
      SortedMembersMatch(members);
    case _ =>
  }

  lemma SortedMembersMatch(ms: seq<Member>)
    requires DistinctKeys(ms)
    ensures var ns := SortMembers(CanonicalMembers(ms));
            && KeysWithin(ms, ns) && KeysWithin(ns, ms)
            && forall i, j :: 0 <= i < |ms| && 0 <= j < |ns| && ms[i].key == ns[j].key ==>
                                ns[j].value == Canonical(ms[i].value)
  {
    hide SortMembers, Canonical;
    var cs := CanonicalMembers(ms);
    var ns := SortMembers(cs);
    forall i | 0 <= i < |ms|
      ensures HasKey(ns, ms[i].key)
    {
      assert cs[i] in cs;
      SortHolds(cs, cs[i]);
    }
    forall j | 0 <= j < |ns|
      ensures exists k :: 0 <= k < |cs| && cs[k] == ns[j]
    {
      SortHolds(cs, ns[j]);
    }
    forall j | 0 <= j < |ns|
      ensures HasKey(ms, ns[j].key)
    {
      var k :| 0 <= k < |cs| && cs[k] == ns[j];
      assert ms[k].key == ns[j].key;
    }
  }

  // ------------------------------------------------- the bytes that are hashed and signed

  function CanonicalBytes(v: Json, ascii: bool): seq<Byte> {
    Utf8.Encode(Print(Canonical(v), ascii))
  }

  /** Canonical JSON decides equality: two payloads get the same bytes if and only if they are the
      same tree up to object member order, with ASCII escapes or without. */
  lemma BytesDecideEquality(a: Json, b: Json, ascii: bool)
    requires WellFormed(a) && WellFormed(b)
    ensures CanonicalBytes(a, ascii) == CanonicalBytes(b, ascii) <==> Same(a, b)
  {
    hide Print, Canonical;
    CanonicalIffSame(a, b);
    if CanonicalBytes(a, ascii) == CanonicalBytes(b, ascii) {
      Utf8.EncodeInjective(Print(Canonical(a), ascii), Print(Canonical(b), ascii));
      PrintInjective(Canonical(a), Canonical(b), ascii);
    }
  }

  /** The canonical text is JSON that reads back as the payload, up to member order. */
  lemma CanonicalReadsBack(v: Json, ascii: bool)
    requires WellFormed(v)
    ensures Parse(Print(Canonical(v), ascii)) == Some(Canonical(v)) && Same(v, Canonical(v))
  {
    hide Print, ParseValue, Canonical;
    PrintRoundTrip(Canonical(v), ascii, "");
    assert Print(Canonical(v), ascii) + "" == Print(Canonical(v), ascii);
    CanonicalIsSame(v);
  }

  /** `canonical_request_hash`, with SHA-256 left open. */
  function RequestHash(sha256: seq<Byte> -> string, payload: Json): string {
    sha256(CanonicalBytes(payload, false))
  }

  /** Two requests count as the same for a key exactly when their payloads are the same tree up to
      member order, as far as SHA-256 does not collide on them. */
  lemma RequestHashDecides(sha256: seq<Byte> -> string, a: Json, b: Json)
    requires WellFormed(a) && WellFormed(b)
    requires sha256(CanonicalBytes(a, false)) == sha256(CanonicalBytes(b, false)) ==>
               CanonicalBytes(a, false) == CanonicalBytes(b, false)
    ensures RequestHash(sha256, a) == RequestHash(sha256, b) <==> Same(a, b)
  {
    BytesDecideEquality(a, b, false);
  }
}
