/** What canonical JSON looks like, written down without its printer: the order of the keys, the
    grammar of the text and the spelling of its strings (sections 2 to 7 of RFC 8259). */
module CanonicalText {
  import opened Text
  import opened Json
  import Utf8

  // ------------------------------------------------- the order of the keys

  /** The first difference is at k, and a has the smaller code point there. */
  predicate SmallerAt(a: string, b: string, k: nat) {
    k < |a| && k < |b| && a[..k] == b[..k] && a[k] as int < b[k] as int
  }

  /** A proper prefix, or the smaller code point at the first difference. */
  ghost predicate Before(a: string, b: string) {
    a < b || exists k :: SmallerAt(a, b, k)
  }

  /** In every object at every depth each key is before the keys that follow it. */
  ghost predicate KeysAscend(v: Json) {
    match v
    case Arr(items) => forall i :: 0 <= i < |items| ==> KeysAscend(items[i])
    case Obj(members) =>
      && (forall i, j :: 0 <= i < j < |members| ==> Before(members[i].key, members[j].key))
      && (forall i :: 0 <= i < |members| ==> KeysAscend(members[i].value))
    case _ => true
  }

  lemma {:induction false} KeyLessIsBefore(a: string, b: string)
    ensures KeyLess(a, b) <==> Before(a, b)
    decreases |a|
  {
    if a != "" && b != "" {
      KeyLessIsBefore(a[1..], b[1..]);
      if a[0] == b[0] {
        BeforeTail(a, b);
      } else if a[0] < b[0] {
        assert SmallerAt(a, b, 0);
      }
    }
  }

  lemma BeforeTail(a: string, b: string)
    requires a != "" && b != "" && a[0] == b[0]
    ensures Before(a, b) <==> Before(a[1..], b[1..])
  {
    hide SmallerAt;
    assert a < b <==> a[1..] < b[1..];
    forall k: nat
      ensures SmallerAt(a[1..], b[1..], k) <==> SmallerAt(a, b, k + 1)
    {
      SmallerLater(a, b, k);
    }
    assert !SmallerAt(a, b, 0) by {
      NotSmallerFirst(a, b);
    }
    if k: nat :| SmallerAt(a, b, k) {
      assert SmallerAt(a[1..], b[1..], k - 1);
    }
  }

  lemma NotSmallerFirst(a: string, b: string)
    requires a != "" && b != "" && a[0] == b[0]
    ensures !SmallerAt(a, b, 0)
  {
  }

  lemma SmallerLater(a: string, b: string, k: nat)
    requires a != "" && b != "" && a[0] == b[0]
    ensures SmallerAt(a[1..], b[1..], k) <==> SmallerAt(a, b, k + 1)
  {
    if k < |a| - 1 && k < |b| - 1 {
      assert a[..k + 1] == [a[0]] + a[1..][..k] && b[..k + 1] == [b[0]] + b[1..][..k];
      assert a[1..][..k] == a[..k + 1][1..] && b[1..][..k] == b[..k + 1][1..];
    }
  }

  lemma AscendingIsSorted(members: seq<Member>)
    ensures SortedKeys(members) <==>
            forall i, j :: 0 <= i < j < |members| ==> Before(members[i].key, members[j].key)
  {
    hide KeyLess, Before;
    forall a, b
      ensures KeyLess(a, b) <==> Before(a, b)
    {
      KeyLessIsBefore(a, b);
    }
  }

  lemma SortedIsDistinct(members: seq<Member>)
    requires SortedKeys(members)
    ensures DistinctKeys(members)
  {
    forall i, j | 0 <= i < j < |members|
      ensures members[i].key != members[j].key
    {
      KeyOrder(members[i].key, members[j].key);
    }
  }

  lemma {:induction false} CanonicalAscends(v: Json)
    requires WellFormed(v)
    ensures KeysAscend(Canonical(v))
    decreases v
  {
    hide Before, KeyLess, SortMembers;
    match v
    case Arr(items) =>
      forall i | 0 <= i < |items|
        ensures KeysAscend(Canonical(items[i]))
      {
        CanonicalAscends(items[i]);
      }
    case Obj(members) =>
      var cs := CanonicalMembers(members);
      var sorted := SortMembers(cs);
      CanonicalKeysDistinct(members);
      SortSorts(cs);
      AscendingIsSorted(sorted);
      forall j | 0 <= j < |sorted|
        ensures KeysAscend(sorted[j].value)
      {
        SortHolds(cs, sorted[j]);
        var i :| 0 <= i < |cs| && cs[i] == sorted[j];
        CanonicalAscends(members[i].value);
      }
    case _ =>
  }

  lemma {:induction false} AscendingIsCanonical(v: Json)
    requires KeysAscend(v)
    ensures WellFormed(v) && Canonical(v) == v
    decreases v
  {
    hide Before, KeyLess, SortMembers, DistinctKeys;
    match v
    case Arr(items) =>
      forall i | 0 <= i < |items|
        ensures WellFormed(items[i]) && Canonical(items[i]) == items[i]
      {
        AscendingIsCanonical(items[i]);
      }
      assert Canonical(v).items == items;
    case Obj(members) =>
      forall i | 0 <= i < |members|
        ensures WellFormed(members[i].value) && Canonical(members[i].value) == members[i].value
      {
        AscendingIsCanonical(members[i].value);
      }
      assert CanonicalMembers(members) == members;
      AscendingIsSorted(members);
      SortedIsDistinct(members);
      SortSorts(members);
      forall x
        ensures x in SortMembers(members) <==> x in members
      {
        SortHolds(members, x);
      }
      SortedUnique(SortMembers(members), members);
    case _ =>
  }

  /** The canonical form of a tree is the one tree that is the same up to member order and has its
      keys in ascending order at every depth. */
  lemma CanonicalIff(v: Json, w: Json)
    requires WellFormed(v)
    ensures w == Canonical(v) <==> KeysAscend(w) && Same(v, w)
  {
    hide Canonical, Same;
    CanonicalAscends(v);
    CanonicalIsSame(v);
    if KeysAscend(w) && Same(v, w) {
      AscendingIsCanonical(w);
      CanonicalIffSame(v, w);
    }
  }

  // ------------------------------------------------- the text

  /** `\u` and four hexadecimal digits. */
  predicate SpellsUnit(t: string, n: nat) {
    && |t| == 6 && t[0] == '\\' && t[1] == 'u'
    && t[2] == "0123456789abcdef"[n / 4096 % 16] && t[3] == "0123456789abcdef"[n / 256 % 16]
    && t[4] == "0123456789abcdef"[n / 16 % 16] && t[5] == "0123456789abcdef"[n % 16]
  }

  /** How one character of a string is written: the quote, the backslash and five control characters by
      a letter, the other control characters in hexadecimal, and the rest as it is, except that ASCII
      texts have everything above the tilde in hexadecimal too, in two surrogates beyond 16 bits. */
  predicate Spells(t: string, c: char, ascii: bool) {
    var n := c as int;
    && (c == '"' ==> t == ['\\', '"'])
    && (c == '\\' ==> t == ['\\', '\\'])
    && (n == 8 ==> t == ['\\', 'b'])
    && (n == 9 ==> t == ['\\', 't'])
    && (n == 10 ==> t == ['\\', 'n'])
    && (n == 12 ==> t == ['\\', 'f'])
    && (n == 13 ==> t == ['\\', 'r'])
    && (n < 32 && n !in {8, 9, 10, 12, 13} ==> SpellsUnit(t, n))
    && (32 <= n && (ascii ==> n <= 126) && c != '"' && c != '\\' ==> t == [c])
    && (ascii && 126 < n < 0x1_0000 ==> SpellsUnit(t, n))
    && (ascii && 0x1_0000 <= n ==>
          && |t| == 12
          && SpellsUnit(t[..6], 0xD800 + (n - 0x1_0000) / 1024)
          && SpellsUnit(t[6..], 0xDC00 + (n - 0x1_0000) % 1024))
  }

  function Concat(parts: seq<string>): string {
    if parts == [] then "" else parts[0] + Concat(parts[1..])
  }

  /** The parts with commas between them. */
  function Join(parts: seq<string>): string {
    if parts == [] then "" else if |parts| == 1 then parts[0] else parts[0] + "," + Join(parts[1..])
  }

  function Paired(keys: seq<string>, values: seq<string>): seq<string>
    requires |keys| == |values|
  {
    seq(|keys|, i requires 0 <= i < |keys| => keys[i] + ":" + values[i])
  }

  ghost predicate WritesString(t: string, s: string, ascii: bool) {
    exists parts: seq<string> ::
      && t == "\"" + Concat(parts) + "\"" && |parts| == |s|
      && forall i :: 0 <= i < |s| ==> Spells(parts[i], s[i], ascii)
  }

  function DecimalValue(t: string): int {
    if t == "" then 0 else 10 * DecimalValue(t[..|t| - 1]) + (t[|t| - 1] as int - '0' as int)
  }

  /** Decimal digits without a leading zero, after a minus sign if the number is negative. */
  predicate WritesNat(t: string, n: int) {
    t != "" && (forall c :: c in t ==> '0' <= c <= '9') && (t[0] == '0' ==> t == "0") && DecimalValue(t) == n
  }

  predicate WritesInt(t: string, n: int) {
    if n < 0 then t != "" && t[0] == '-' && WritesNat(t[1..], -n) else WritesNat(t, n)
  }

  /** The text of a value, without any space. */
  ghost predicate Writes(t: string, v: Json, ascii: bool)
    decreases v
  {
    match v
    case Null => t == "null"
    case Bool(b) => t == if b then "true" else "false"
    case Int(n) => WritesInt(t, n)
    case Str(s) => WritesString(t, s, ascii)
    case Arr(items) =>
      exists texts: seq<string> ::
        && t == "[" + Join(texts) + "]" && |texts| == |items|
        && forall i :: 0 <= i < |items| ==> Writes(texts[i], items[i], ascii)
    case Obj(members) =>
      exists keys: seq<string>, values: seq<string> ::
        && |keys| == |members| == |values| && t == "{" + Join(Paired(keys, values)) + "}"
        && (forall i :: 0 <= i < |members| ==> WritesString(keys[i], members[i].key, ascii))
        && (forall i :: 0 <= i < |members| ==> Writes(values[i], members[i].value, ascii))
  }

  lemma UnitSpelled(n: nat)
    ensures SpellsUnit(Unicode(n), n)
  {
    assert n / 16 / 16 == n / 256 && n / 256 / 16 == n / 4096;
    assert Fixed(16, n, 4) == Fixed(16, n / 16, 3) + [HEX[n % 16]];
    assert Fixed(16, n / 16, 3) == Fixed(16, n / 256, 2) + [HEX[n / 16 % 16]];
    assert Fixed(16, n / 256, 2) == Fixed(16, n / 4096, 1) + [HEX[n / 256 % 16]];
    assert Fixed(16, n / 4096, 1) == Fixed(16, n / 4096 / 16, 0) + [HEX[n / 4096 % 16]];
  }

  lemma CharacterSpelled(c: char, ascii: bool)
    ensures Spells(Escape(c, ascii), c, ascii)
  {
    hide Unicode, SpellsUnit;
    var n := c as int;
    UnitSpelled(n);
    if n >= 0x1_0000 {
      var high, low := 0xD800 + (n - 0x1_0000) / 1024, 0xDC00 + (n - 0x1_0000) % 1024;
      UnitSpelled(high);
      UnitSpelled(low);
      UnitLength(high);
      UnitLength(low);
      assert (Unicode(high) + Unicode(low))[..6] == Unicode(high);
      assert (Unicode(high) + Unicode(low))[6..] == Unicode(low);
    }
  }

  lemma UnitLength(n: nat)
    ensures |Unicode(n)| == 6
  {
  }

  lemma {:induction false} StringSpelled(s: string, ascii: bool) returns (parts: seq<string>)
    ensures EscapeAll(s, ascii) == Concat(parts) && |parts| == |s|
    ensures forall i :: 0 <= i < |s| ==> Spells(parts[i], s[i], ascii)
  {
    hide Escape, Spells;
    if s == "" {
      parts := [];
    } else {
      var rest := StringSpelled(s[1..], ascii);
      CharacterSpelled(s[0], ascii);
      parts := [Escape(s[0], ascii)] + rest;
      assert parts[1..] == rest;
    }
  }

  lemma StringWritten(s: string, ascii: bool)
    ensures WritesString(Quote(s, ascii), s, ascii)
  {
    hide Spells, EscapeAll, Concat;
    var parts := StringSpelled(s, ascii);
    assert Quote(s, ascii) == "\"" + Concat(parts) + "\"";
  }

  lemma {:induction false} NatWritten(n: nat)
    ensures WritesNat(Digits(n), n)
  {
    hide Value;
    DigitsValue(n);
    DigitsStep(n);
    if n >= 10 {
      NatWritten(n / 10);
    }
  }

  lemma DigitsStep(n: nat)
    ensures DecimalValue(Digits(n)) == (if n < 10 then 0 else 10 * DecimalValue(Digits(n / 10))) + n % 10
    ensures n < 10 ==> |Digits(n)| == 1
  {
    var s := Digits(n);
    if n >= 10 {
      assert s[..|s| - 1] == Digits(n / 10) && s[|s| - 1] == HEX[n % 10];
    } else {
      assert s == [HEX[n]] && s[..0] == "";
    }
    HexDigit(n % 10);
  }

  lemma HexDigit(d: nat)
    requires d < 10
    ensures HEX[d] as int == '0' as int + d
  {
  }

  lemma IntWritten(n: int)
    ensures WritesInt(Decimal(n), n)
  {
    hide Digits, WritesNat;
    if n < 0 {
      NatWritten(-n);
      assert Decimal(n)[1..] == Digits(-n);
    } else {
      NatWritten(n);
    }
  }

  lemma {:induction false} ItemsJoined(items: seq<Json>, texts: seq<string>, first: bool, ascii: bool)
    requires |texts| == |items| && forall i :: 0 <= i < |items| ==> texts[i] == Print(items[i], ascii)
    ensures PrintItems(items, first, ascii) == (if first || items == [] then "" else ",") + Join(texts)
    decreases items
  {
    hide Print;
    if items != [] {
      ItemsJoined(items[1..], texts[1..], false, ascii);
      JoinStep(texts);
    }
  }

  lemma JoinStep(texts: seq<string>)
    requires texts != []
    ensures Join(texts) == texts[0] + ((if texts[1..] == [] then "" else ",") + Join(texts[1..]))
  {
    if |texts| == 1 {
      assert texts[1..] == [];
    }
  }

  lemma {:induction false} MembersJoined(
    members: seq<Member>, keys: seq<string>, values: seq<string>, first: bool, ascii: bool)
    requires |keys| == |members| == |values|
    requires forall i :: 0 <= i < |members| ==> keys[i] == Quote(members[i].key, ascii)
    requires forall i :: 0 <= i < |members| ==> values[i] == Print(members[i].value, ascii)
    ensures PrintMembers(members, first, ascii) ==
            (if first || members == [] then "" else ",") + Join(Paired(keys, values))
    decreases members
  {
    hide Print, Quote, Join, Paired;
    if members == [] {
      NoPairs(keys, values);
    } else {
      MembersJoined(members[1..], keys[1..], values[1..], false, ascii);
      PairedStep(keys, values);
      JoinStep(Paired(keys, values));
      Regroup(keys[0], values[0], PrintMembers(members[1..], false, ascii));
    }
  }

  lemma NoPairs(keys: seq<string>, values: seq<string>)
    requires |keys| == |values| == 0
    ensures Join(Paired(keys, values)) == ""
  {
  }

  lemma PairedStep(keys: seq<string>, values: seq<string>)
    requires |keys| == |values| > 0
    ensures Paired(keys, values) != [] && Paired(keys, values)[0] == keys[0] + ":" + values[0]
    ensures Paired(keys, values)[1..] == Paired(keys[1..], values[1..])
    ensures Paired(keys, values)[1..] == [] <==> |keys| == 1
  {
  }

  lemma Regroup(key: string, value: string, rest: string)
    ensures key + (":" + (value + rest)) == key + ":" + value + rest
  {
  }

  /** The printer writes the text of its value. */
  lemma {:induction false} PrintWrites(v: Json, ascii: bool)
    ensures Writes(Print(v, ascii), v, ascii)
    decreases v, 1
  {
    hide Quote, WritesString, WritesInt, Decimal, PrintItems, PrintMembers, Join, Paired;
    match v
    case Int(n) => IntWritten(n);
    case Str(s) => StringWritten(s, ascii);
    case Arr(items) =>
      var texts := ItemsWritten(items, ascii);
      assert Print(v, ascii) == "[" + Join(texts) + "]";
    case Obj(members) =>
      var keys, values := MembersWritten(members, ascii);
      assert Print(v, ascii) == "{" + Join(Paired(keys, values)) + "}";
    case _ =>
  }

  lemma {:induction false} ItemsWritten(items: seq<Json>, ascii: bool) returns (texts: seq<string>)
    ensures |texts| == |items| && forall i :: 0 <= i < |items| ==> Writes(texts[i], items[i], ascii)
    ensures PrintItems(items, true, ascii) == Join(texts)
    decreases items, 0
  {
    hide Writes, Print, PrintItems, Join;
    texts := seq(|items|, i requires 0 <= i < |items| => Print(items[i], ascii));
    forall i | 0 <= i < |items|
      ensures Writes(texts[i], items[i], ascii)
    {
      PrintWrites(items[i], ascii);
    }
    ItemsJoined(items, texts, true, ascii);
  }

  lemma {:induction false} MembersWritten(members: seq<Member>, ascii: bool)
    returns (keys: seq<string>, values: seq<string>)
    ensures |keys| == |members| == |values| && PrintMembers(members, true, ascii) == Join(Paired(keys, values))
    ensures forall i :: 0 <= i < |members| ==> WritesString(keys[i], members[i].key, ascii)
    ensures forall i :: 0 <= i < |members| ==> Writes(values[i], members[i].value, ascii)
    decreases members, 0
  {
    hide Writes, WritesString, Quote, Print, PrintMembers, Join, Paired;
    keys := seq(|members|, i requires 0 <= i < |members| => Quote(members[i].key, ascii));
    values := seq(|members|, i requires 0 <= i < |members| => Print(members[i].value, ascii));
    forall i | 0 <= i < |members|
      ensures WritesString(keys[i], members[i].key, ascii) && Writes(values[i], members[i].value, ascii)
    {
      StringWritten(members[i].key, ascii);
      PrintWrites(members[i].value, ascii);
    }
    MembersJoined(members, keys, values, true, ascii);
  }

  lemma SpelledOnce(t: string, c: char, ascii: bool)
    requires Spells(t, c, ascii)
    ensures t == Escape(c, ascii)
  {
    hide Unicode, SpellsUnit;
    var n := c as int;
    if (n < 32 && n !in {8, 9, 10, 12, 13}) || (ascii && 126 < n < 0x1_0000) {
      UnitOnce(t, n);
    }
    if ascii && n >= 0x1_0000 {
      UnitOnce(t[..6], 0xD800 + (n - 0x1_0000) / 1024);
      UnitOnce(t[6..], 0xDC00 + (n - 0x1_0000) % 1024);
      assert t == t[..6] + t[6..];
    }
  }

  lemma UnitOnce(t: string, n: nat)
    requires SpellsUnit(t, n)
    ensures t == Unicode(n)
  {
    UnitSpelled(n);
    UnitLength(n);
    var u := Unicode(n);
    assert forall i :: 0 <= i < 6 ==> t[i] == u[i];
  }

  lemma {:induction false} StringOnce(parts: seq<string>, s: string, ascii: bool)
    requires |parts| == |s| && forall i :: 0 <= i < |s| ==> Spells(parts[i], s[i], ascii)
    ensures Concat(parts) == EscapeAll(s, ascii)
  {
    hide Escape, Spells;
    if s != "" {
      SpelledOnce(parts[0], s[0], ascii);
      StringOnce(parts[1..], s[1..], ascii);
    }
  }

  lemma StringWrittenOnce(t: string, s: string, ascii: bool)
    requires WritesString(t, s, ascii)
    ensures t == Quote(s, ascii)
  {
    hide Spells, EscapeAll, Concat;
    var parts: seq<string> :| && t == "\"" + Concat(parts) + "\"" && |parts| == |s|
                              && forall i :: 0 <= i < |s| ==> Spells(parts[i], s[i], ascii);
    StringOnce(parts, s, ascii);
  }

  lemma {:induction false} NatWrittenOnce(t: string, n: int)
    requires WritesNat(t, n)
    ensures n >= 0 && t == Digits(n) && (t != "0" ==> n > 0)
    decreases |t|
  {
    hide Digits, DecimalValue;
    var init, d := LastDigit(t);
    if init == "" {
      DigitsOf(0, d);
    } else {
      assert init[0] == t[0] && forall c :: c in init ==> c in t;
      NatWrittenOnce(init, DecimalValue(init));
      DigitsOf(DecimalValue(init), d);
    }
  }

  lemma LastDigit(t: string) returns (init: string, d: nat)
    requires t != "" && forall c :: c in t ==> '0' <= c <= '9'
    ensures d < 10 && t == init + [DigitChar(d)] && (t == "0" <==> init == "" && d == 0)
    ensures DecimalValue(t) == 10 * DecimalValue(init) + d
    ensures init == "" ==> DecimalValue(init) == 0
  {
    var c := t[|t| - 1];
    assert c in t;
    init, d := t[..|t| - 1], c as int - '0' as int;
    HexDigit(d);
  }

  lemma DigitsOf(q: nat, d: nat)
    requires d < 10
    ensures Digits(10 * q + d) == if q == 0 then [DigitChar(d)] else Digits(q) + [DigitChar(d)]
  {
    assert (10 * q + d) / 10 == q && (10 * q + d) % 10 == d;
  }

  lemma IntWrittenOnce(t: string, n: int)
    requires WritesInt(t, n)
    ensures t == Decimal(n)
  {
    hide Digits, WritesNat;
    if n < 0 {
      NatWrittenOnce(t[1..], -n);
      assert t == ['-'] + t[1..];
    } else {
      NatWrittenOnce(t, n);
    }
  }

  lemma {:induction false} WrittenOnce(t: string, v: Json, ascii: bool)
    requires Writes(t, v, ascii)
    ensures t == Print(v, ascii)
    decreases v, 1
  {
    hide Quote, WritesString, WritesInt, Decimal, PrintItems, PrintMembers, Join, Paired;
    match v
    case Int(n) => IntWrittenOnce(t, n);
    case Str(s) => StringWrittenOnce(t, s, ascii);
    case Arr(items) =>
      var texts: seq<string> :| && t == "[" + Join(texts) + "]" && |texts| == |items|
                                && forall i :: 0 <= i < |items| ==> Writes(texts[i], items[i], ascii);
      ItemsWrittenOnce(texts, items, ascii);
    case Obj(members) =>
      var keys: seq<string>, values: seq<string> :|
        && |keys| == |members| == |values| && t == "{" + Join(Paired(keys, values)) + "}"
        && (forall i :: 0 <= i < |members| ==> WritesString(keys[i], members[i].key, ascii))
        && (forall i :: 0 <= i < |members| ==> Writes(values[i], members[i].value, ascii));
      MembersWrittenOnce(keys, values, members, ascii);
    case _ =>
  }

  lemma {:induction false} ItemsWrittenOnce(texts: seq<string>, items: seq<Json>, ascii: bool)
    requires |texts| == |items| && forall i :: 0 <= i < |items| ==> Writes(texts[i], items[i], ascii)
    ensures "[" + Join(texts) + "]" == Print(Arr(items), ascii)
    decreases items, 0
  {
    hide Writes, PrintItems, Join;
    forall i | 0 <= i < |items|
      ensures texts[i] == Print(items[i], ascii)
    {
      WrittenOnce(texts[i], items[i], ascii);
    }
    ItemsJoined(items, texts, true, ascii);
  }

  lemma {:induction false} MembersWrittenOnce(
    keys: seq<string>, values: seq<string>, members: seq<Member>, ascii: bool)
    requires |keys| == |members| == |values|
    requires forall i :: 0 <= i < |members| ==> WritesString(keys[i], members[i].key, ascii)
    requires forall i :: 0 <= i < |members| ==> Writes(values[i], members[i].value, ascii)
    ensures "{" + Join(Paired(keys, values)) + "}" == Print(Obj(members), ascii)
    decreases members, 0
  {
    hide Writes, WritesString, Quote, PrintMembers, Join, Paired;
    forall i | 0 <= i < |members|
      ensures keys[i] == Quote(members[i].key, ascii) && values[i] == Print(members[i].value, ascii)
    {
      StringWrittenOnce(keys[i], members[i].key, ascii);
      WrittenOnce(values[i], members[i].value, ascii);
    }
    MembersJoined(members, keys, values, true, ascii);
  }

  /** The printer's output is the one text of a value. */
  lemma PrintIff(t: string, v: Json, ascii: bool)
    ensures t == Print(v, ascii) <==> Writes(t, v, ascii)
  {
    hide Print, Writes;
    PrintWrites(v, ascii);
    if Writes(t, v, ascii) {
      WrittenOnce(t, v, ascii);
    }
  }

  /** The canonical text of a payload is the one text of the tree that is the payload up to member order
      and has its keys in ascending order at every depth. */
  lemma CanonicalTextIff(v: Json, t: string, ascii: bool)
    requires WellFormed(v)
    ensures t == Print(Canonical(v), ascii) <==> exists w :: Same(v, w) && KeysAscend(w) && Writes(t, w, ascii)
  {
    hide Same, KeysAscend, Writes, Print, Canonical;
    CanonicalIff(v, Canonical(v));
    PrintIff(t, Canonical(v), ascii);
    if w :| Same(v, w) && KeysAscend(w) && Writes(t, w, ascii) {
      CanonicalIff(v, w);
    }
  }

  /** What is hashed for a request: the UTF-8 bytes of that text without ASCII escapes. */
  lemma HashedText(sha256: seq<Byte> -> string, v: Json, w: Json, t: string)
    requires WellFormed(v)
    ensures Same(v, w) && KeysAscend(w) && Writes(t, w, false) ==> RequestHash(sha256, v) == sha256(Utf8.Encode(t))
  {
    hide Same, KeysAscend, Writes, Print, Canonical;
    CanonicalIff(v, w);
    PrintIff(t, w, false);
  }

  /** Two spellings of one payload have one canonical form and one text. */
  lemma KnownText(v: Json, w: Json, mark: Json, numbers: Json, ascii: bool)
    requires mark == Str("\U{1}") && numbers == Arr([Int(-20)])
    requires v == Obj([Member("b", numbers), Member("a", mark)])
    requires w == Obj([Member("a", mark), Member("b", numbers)])
    ensures Canonical(v) == Canonical(w) == w
    ensures Print(w, ascii) == "{\"a\":\"\\u0001\",\"b\":[-20]}"
  {
    hide Canonical, Print, Before, Same, KeysAscend;
    KnownOrder(v, w, mark, numbers);
    AscendingIsCanonical(w);
    CanonicalIff(v, w);
    KnownPrint(mark, numbers, w, ascii);
  }

  lemma KnownOrder(v: Json, w: Json, mark: Json, numbers: Json)
    requires mark == Str("\U{1}") && numbers == Arr([Int(-20)])
    requires v == Obj([Member("b", numbers), Member("a", mark)])
    requires w == Obj([Member("a", mark), Member("b", numbers)])
    ensures KeysAscend(w) && WellFormed(v) && Same(v, w)
  {
    assert SmallerAt("a", "b", 0);
    var ms, ns := v.members, w.members;
    assert ms[0].key == ns[1].key == "b" && ms[1].key == ns[0].key == "a";
    assert HasKey(ms, "a") && HasKey(ns, "a") && HasKey(ms, "b") && HasKey(ns, "b");
    assert Same(mark, mark) && Same(numbers, numbers);
  }

  lemma KnownEscapes(ascii: bool)
    ensures Escape('\U{1}', ascii) == "\\u0001" && Escape('a', ascii) == "a" && Escape('b', ascii) == "b"
  {
    assert Fixed(16, 1, 4) == "0001";
  }

  lemma KnownValues(ascii: bool)
    ensures Print(Str("\U{1}"), ascii) == "\"\\u0001\"" && Print(Arr([Int(-20)]), ascii) == "[-20]"
    ensures Quote("a", ascii) == "\"a\"" && Quote("b", ascii) == "\"b\""
  {
    hide Escape;
    KnownEscapes(ascii);
    assert Digits(20) == "20";
  }

  lemma KnownPrint(mark: Json, numbers: Json, w: Json, ascii: bool)
    requires mark == Str("\U{1}") && numbers == Arr([Int(-20)])
    requires w == Obj([Member("a", mark), Member("b", numbers)])
    ensures Print(w, ascii) == "{\"a\":\"\\u0001\",\"b\":[-20]}"
  {
    hide Print, Quote;
    KnownValues(ascii);
    TwoMembers(w.members[0], w.members[1], ascii);
    var first := "\"a\"" + ":" + "\"\\u0001\"";
    var second := "\"b\"" + ":" + "[-20]";
    assert first == "\"a\":\"\\u0001\"" && second == "\"b\":[-20]";
  }

  lemma TwoMembers(m: Member, n: Member, ascii: bool)
    ensures Print(Obj([m, n]), ascii) ==
            "{" + (Quote(m.key, ascii) + ":" + Print(m.value, ascii)) + "," +
            (Quote(n.key, ascii) + ":" + Print(n.value, ascii)) + "}"
  {
    hide Print, Quote, PrintMembers;
    var keys, values := [Quote(m.key, ascii), Quote(n.key, ascii)], [Print(m.value, ascii), Print(n.value, ascii)];
    MembersJoined([m, n], keys, values, true, ascii);
    ObjectText([m, n], ascii);
  }

  lemma ObjectText(members: seq<Member>, ascii: bool)
    ensures Print(Obj(members), ascii) == "{" + (PrintMembers(members, true, ascii) + "}")
  {
  }
}
