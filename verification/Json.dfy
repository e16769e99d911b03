/**
 The JSON library (src/enclave/utils/Json.h): the compact printer dump_vector and the
 recursive-descent parser behind Load.

 The parser works on a raw buffer and never sees its length. Here an outcome is `Stuck`
 where the code would read past the end of the buffer or throw, and for floating-point
 numbers, which are not modelled. Otherwise it yields a value, the rest of the text and
 whether the status is still a success. An object is a std::map, here the list of its
 members in ascending order of key.
 */
module Json {
  import opened Basics
  import opened Order

  type Long = n: int | -0x8000_0000_0000_0000 <= n < 0x8000_0000_0000_0000

  datatype Member = Member(key: string, value: JSON)

  datatype JSON =
    | Null
    | Boolean(b: bool)
    | Integral(n: Long)
    | HashValue(h: Hash)
    | String(s: string)
    | Array(items: seq<JSON>)
    | Object(members: seq<Member>)

  const HASH_TAG := "$&JT&$"

  predicate Tagged(s: string) { HASH_TAG <= s }

  // ----- Printing -----

  function EscapeChar(c: char): string {
    match c
    case '"' => "\\\""
    case '\\' => "\\\\"
    case '\U{0008}' => "\\b"
    case '\U{000C}' => "\\f"
    case '\n' => "\\n"
    case '\r' => "\\r"
    case '\t' => "\\t"
    case _ => [c]
  }

  function Escape(s: string): string {
    if s == [] then [] else EscapeChar(s[0]) + Escape(s[1..])
  }

  function HexDigit(d: int): char
    requires 0 <= d < 16
  {
    if d < 10 then '0' + d as char else 'a' + (d - 10) as char
  }

  function Hex(bytes: Bytes): string {
    if bytes == [] then [] else [HexDigit(bytes[0] / 16), HexDigit(bytes[0] % 16)] + Hex(bytes[1..])
  }

  function Decimal(n: nat): (s: string)
    ensures s != []
  {
    if n < 10 then ['0' + n as char] else Decimal(n / 10) + ['0' + (n % 10) as char]
  }

  function Magnitude(n: int): nat { if n < 0 then -n else n }

  function NumberText(n: int): string {
    if n < 0 then "-" + Decimal(Magnitude(n)) else Decimal(Magnitude(n))
  }

  function Quoted(s: string): string { "\"" + s + "\"" }

  function Print(v: JSON): string
    decreases v, 1
  {
    match v
    case Null => "null"
    case Boolean(b) => if b then "true" else "false"
    case Integral(n) => NumberText(n)
    case HashValue(h) => Quoted(HASH_TAG + Hex(h))
    case String(s) => Quoted(Escape(s))
    case Array(items) => "[" + PrintItems(items) + "]"
    case Object(members) => "{" + PrintMembers(members) + "}"
  }

  function PrintItems(items: seq<JSON>): string
    decreases items, 0
  {
    if items == [] then ""
    else if |items| == 1 then Print(items[0])
    else Print(items[0]) + "," + PrintItems(items[1..])
  }

  function PrintMember(m: Member): string
    decreases m, 0
  {
    Quoted(m.key) + ":" + Print(m.value)
  }

  function PrintMembers(ms: seq<Member>): string
    decreases ms, 0
  {
    if ms == [] then ""
    else if |ms| == 1 then PrintMember(ms[0])
    else PrintMember(ms[0]) + "," + PrintMembers(ms[1..])
  }

  // ----- Parsing -----

  datatype Outcome = Stuck | Done(value: JSON, rest: string, ok: bool)

  predicate IsSpace(c: char) { c == ' ' || '\t' <= c <= '\r' }

  function SkipSpace(s: string): (r: string)
    ensures |r| <= |s|
  {
    if s != [] && IsSpace(s[0]) then SkipSpace(s[1..]) else s
  }

  predicate IsDigit(c: char) { '0' <= c <= '9' }

  predicate IsHexDigit(c: char) { IsDigit(c) || 'a' <= c <= 'f' || 'A' <= c <= 'F' }

  /** char_to_int: a character that is no hex digit counts as zero. */
  function HexValue(c: char): (d: int)
    ensures 0 <= d < 16
  {
    if IsDigit(c) then (c - '0') as int
    else if 'A' <= c <= 'F' then (c - 'A') as int + 10
    else if 'a' <= c <= 'f' then (c - 'a') as int + 10
    else 0
  }

  function FromHex(s: string): Bytes {
    if |s| < 2 then [] else [HexValue(s[0]) * 16 + HexValue(s[1])] + FromHex(s[2..])
  }

  /** hex_string_to_bytes. */
  function HexToBytes(s: string): Option<Bytes> {
    if |s| % 2 != 0 || s == [] then None else Some(FromHex(s))
  }

  /** The end of parse_string: a tagged text is taken for a hash, of which 32 bytes are copied. */
  function FinishString(val: string, rest: string): Outcome {
    if !Tagged(val) then Done(String(val), rest, true)
    else
      var hex := val[|HASH_TAG|..];
      match HexToBytes(hex)
      case None => Done(String(hex), rest, true)
      case Some(bytes) => if |bytes| < 32 then Stuck else Done(HashValue(bytes[..32]), rest, true)
  }

  /** The loop of parse_string, behind the opening quote. */
  function StringLoop(s: string, val: string): (r: Outcome)
    ensures r.Done? ==> |r.rest| < |s| && (r.value.String? || r.value.HashValue?)
    decreases |s|
  {
    if s == [] then Stuck
    else if s[0] == '"' then FinishString(val, s[1..])
    else if s[0] != '\\' then StringLoop(s[1..], val + [s[0]])
    else if |s| < 2 then Stuck
    else
      match s[1]
      case '"' => StringLoop(s[2..], val + "\"")
      case '\\' => StringLoop(s[2..], val + "\\")
      case '/' => StringLoop(s[2..], val + "/")
      case 'b' => StringLoop(s[2..], val + "\U{0008}")
      case 'f' => StringLoop(s[2..], val + "\U{000C}")
      case 'n' => StringLoop(s[2..], val + "\n")
      case 'r' => StringLoop(s[2..], val + "\r")
      case 't' => StringLoop(s[2..], val + "\t")
      case 'u' => UnicodeEscape(s[1..], val, 1)
      case _ => StringLoop(s[2..], val + "\\")
  }

  /** `\uXXXX` is kept as it stands; `s` begins at the `u`, and `i` of its digits are being looked at. */
  function UnicodeEscape(s: string, val: string, i: nat): (r: Outcome)
    requires s != [] && 1 <= i <= 5 && i <= |s|
    ensures r.Done? ==> |r.rest| <= |s| && (r.value.String? || r.value.HashValue?)
    decreases |s|, 5 - i
  {
    if i == 5 then StringLoop(s[5..], val + "\\u" + s[1..5])
    else if |s| <= i then Stuck
    else if IsHexDigit(s[i]) then UnicodeEscape(s, val, i + 1)
    else Done(String(""), s, false)
  }

  /** Whether the text begins with a word: comparing runs past the end if the text is a part of the word. */
  datatype Compared = Same | Different | PastEnd

  function Compare(s: string, word: string): Compared {
    if word <= s then Same else if s <= word then PastEnd else Different
  }

  function ParseBool(s: string): Outcome {
    match Compare(s, "true")
    case PastEnd => Stuck
    case Same => Done(Boolean(true), s[4..], true)
    case Different =>
      match Compare(s, "false")
      case PastEnd => Stuck
      case Same => Done(Boolean(false), s[5..], true)
      case Different => Done(Null, s, false)
  }

  function ParseNull(s: string): Outcome {
    match Compare(s, "null")
    case PastEnd => Stuck
    case Same => Done(Null, s[4..], true)
    case Different => Done(Null, s, false)
  }

  function LeadingDigits(s: string): (r: string)
    ensures |r| <= |s|
  {
    if s != [] && IsDigit(s[0]) then [s[0]] + LeadingDigits(s[1..]) else []
  }

  function DigitValues(s: string): (ds: seq<int>)
    ensures |ds| == |s|
  {
    if s == [] then [] else DigitValues(s[..|s| - 1]) + [s[|s| - 1] as int - '0' as int]
  }

  /** std::stol: nothing if it throws. */
  function ToLong(s: string): Option<Long> {
    var negative := s != [] && s[0] == '-';
    var digits := LeadingDigits(if negative then s[1..] else s);
    var n := if negative then -Num(10, DigitValues(digits)) else Num(10, DigitValues(digits));
    if digits == [] || n < -0x8000_0000_0000_0000 || n >= 0x8000_0000_0000_0000 then None else Some(n)
  }

  predicate EndsNumber(c: char) { IsSpace(c) || c == ',' || c == ']' || c == '}' }

  /** The loop of parse_number. A decimal point or an exponent makes a floating-point number. */
  function NumberLoop(s: string, val: string): (r: Outcome)
    ensures r.Done? ==> |r.rest| <= |s| && (r.value.Null? || r.value.Integral?)
    decreases |s|
  {
    if s == [] then Stuck
    else if s[0] == '-' || IsDigit(s[0]) then NumberLoop(s[1..], val + [s[0]])
    else if s[0] == '.' || s[0] == 'E' || s[0] == 'e' then Stuck
    else if !EndsNumber(s[0]) then Done(Null, s[1..], false)
    else match ToLong(val)
         case None => Stuck
         case Some(n) => Done(Integral(n), s, true)
  }

  /** JSON::ToString, as it is applied to the key of a member. */
  function KeyText(v: JSON): string {
    match v
    case String(s) => Escape(s)
    case HashValue(h) => Hex(h)
    case Integral(n) => NumberText(n)
    case _ => ""
  }

  /** Assignment to a member of a std::map. */
  function Put(ms: seq<Member>, key: string, value: JSON): seq<Member> {
    if ms == [] then [Member(key, value)]
    else if ms[0].key == key then [Member(key, value)] + ms[1..]
    else if Less(key, ms[0].key) then [Member(key, value)] + ms
    else [ms[0]] + Put(ms[1..], key, value)
  }

  /** parse_next. */
  function Next(s: string): (r: Outcome)
    ensures r.Done? ==> |r.rest| <= |s|
    decreases |s|, 0
  {
    var t := SkipSpace(s);
    if t == [] then Stuck
    else if t[0] == '[' then ParseArray(t[1..])
    else if t[0] == '{' then ParseObject(t[1..])
    else if t[0] == '"' then StringLoop(t[1..], "")
    else if t[0] == 't' || t[0] == 'f' then ParseBool(t)
    else if t[0] == 'n' then ParseNull(t)
    else if IsDigit(t[0]) || t[0] == '-' then NumberLoop(t, "")
    else Done(Null, t, false)
  }

  function ParseArray(s: string): (r: Outcome)
    ensures r.Done? ==> |r.rest| <= |s|
    decreases |s|, 2
  {
    var t := SkipSpace(s);
    if t == [] then Stuck
    else if t[0] == ']' then Done(Array([]), t[1..], true)
    else ArrayLoop(t, [], true)
  }

  function ArrayLoop(s: string, items: seq<JSON>, ok: bool): (r: Outcome)
    ensures r.Done? ==> |r.rest| <= |s|
    decreases |s|, 1
  {
    match Next(s)
    case Stuck => Stuck
    case Done(v, rest, ok') =>
      var t := SkipSpace(rest);
      if t == [] then Stuck
      else if t[0] == ',' then ArrayLoop(t[1..], items + [v], ok && ok')
      else if t[0] == ']' then Done(Array(items + [v]), t[1..], ok && ok')
      else Done(Array([]), t, false)
  }

  function ParseObject(s: string): (r: Outcome)
    ensures r.Done? ==> |r.rest| <= |s|
    decreases |s|, 2
  {
    var t := SkipSpace(s);
    if t == [] then Stuck
    else if t[0] == '}' then Done(Object([]), t[1..], true)
    else ObjectLoop(t, [], true)
  }

  function ObjectLoop(s: string, ms: seq<Member>, ok: bool): (r: Outcome)
    ensures r.Done? ==> |r.rest| <= |s|
    decreases |s|, 1
  {
    match Next(s)
    case Stuck => Stuck
    case Done(k, rest, ok1) =>
      var t := SkipSpace(rest);
      if t == [] then Stuck
      else if t[0] != ':' then Done(Object(ms), t, false)
      else match Next(SkipSpace(t[1..]))
           case Stuck => Stuck
           case Done(v, rest', ok2) =>
             var ms' := Put(ms, KeyText(k), v);
             var u := SkipSpace(rest');
             if u == [] then Stuck
             else if u[0] == ',' then ObjectLoop(u[1..], ms', ok && ok1 && ok2)
             else if u[0] == '}' then Done(Object(ms'), u[1..], ok && ok1 && ok2)
             else Done(Object(ms'), u, false)
  }

  /** JSON::Load on a buffer. */
  function Load(text: string): Outcome {
    if text == [] then Done(Null, [], true) else Next(text)
  }

  // ----- Strings -----

  lemma EscapeCharReads(c: char, s: string, val: string)
    ensures StringLoop(EscapeChar(c) + s, val) == StringLoop(s, val + [c])
  {
    var e := EscapeChar(c);
    if |e| == 1 {
      assert (e + s)[1..] == s;
    } else {
      assert (e + s)[2..] == s;
    }
  }

  /** What json_escape writes, parse_string reads back, up to the closing quote. */
  lemma {:induction false} EscapeReads(s: string, rest: string, val: string)
    ensures StringLoop(Escape(s) + "\"" + rest, val) == FinishString(val + s, rest)
    decreases |s|
  {
    var tail := "\"" + rest;
    if s == [] {
      assert Escape(s) + "\"" + rest == tail && tail[1..] == rest;
      assert val + s == val;
    } else {
      var more := Escape(s[1..]) + "\"" + rest;
      assert Escape(s) + "\"" + rest == EscapeChar(s[0]) + more;
      EscapeCharReads(s[0], more, val);
      EscapeReads(s[1..], rest, val + [s[0]]);
      assert val + [s[0]] + s[1..] == val + s;
    }
  }

  predicate Plain(s: string) {
    forall i :: 0 <= i < |s| ==> EscapeChar(s[i]) == [s[i]]
  }

  lemma {:induction false} PlainEscapes(s: string)
    requires Plain(s)
    ensures Escape(s) == s
  {
    if s != [] {
      PlainEscapes(s[1..]);
      assert s == [s[0]] + s[1..];
    }
  }

  lemma {:induction false} HexReads(bytes: Bytes)
    ensures |Hex(bytes)| == 2 * |bytes| && FromHex(Hex(bytes)) == bytes && Plain(Hex(bytes))
  {
    if bytes != [] {
      HexReads(bytes[1..]);
      var h := Hex(bytes);
      assert h[2..] == Hex(bytes[1..]);
      HexDigitReads(bytes[0] / 16);
      HexDigitReads(bytes[0] % 16);
      assert bytes == [bytes[0]] + bytes[1..];
      assert forall i :: 2 <= i < |h| ==> h[i] == Hex(bytes[1..])[i - 2];
    }
  }

  lemma HexDigitReads(d: int)
    requires 0 <= d < 16
    ensures HexValue(HexDigit(d)) == d && EscapeChar(HexDigit(d)) == [HexDigit(d)]
  {
  }

  // ----- Numbers -----

  lemma {:induction false} DecimalReads(n: nat)
    ensures forall i :: 0 <= i < |Decimal(n)| ==> IsDigit(Decimal(n)[i])
    ensures Num(10, DigitValues(Decimal(n))) == n
  {
    if n >= 10 {
      DecimalReads(n / 10);
      var d := Decimal(n);
      assert d[..|d| - 1] == Decimal(n / 10);
      assert DigitValues(d) == DigitValues(Decimal(n / 10)) + [n % 10];
      assert DigitValues(d)[..|d| - 1] == DigitValues(Decimal(n / 10));
    } else {
      assert DigitValues(Decimal(n)) == DigitValues([]) + [n];
      assert [n][..0] == [];
    }
  }

  lemma {:induction false} AllDigitsLead(s: string)
    requires forall i :: 0 <= i < |s| ==> IsDigit(s[i])
    ensures LeadingDigits(s) == s
  {
    if s != [] {
      AllDigitsLead(s[1..]);
      assert s == [s[0]] + s[1..];
    }
  }

  lemma NumberTextReads(n: Long)
    ensures ToLong(NumberText(n)) == Some(n)
  {
    var m := Magnitude(n);
    DecimalReads(m);
    AllDigitsLead(Decimal(m));
    if n < 0 {
      assert NumberText(n)[1..] == Decimal(m);
    }
  }

  lemma {:induction false} NumberLoopSkips(s: string, rest: string, val: string)
    requires forall i :: 0 <= i < |s| ==> IsDigit(s[i]) || s[i] == '-'
    ensures NumberLoop(s + rest, val) == NumberLoop(rest, val + s)
    decreases |s|
  {
    if s == [] {
      assert s + rest == rest && val + s == val;
    } else {
      assert (s + rest)[1..] == s[1..] + rest;
      NumberLoopSkips(s[1..], rest, val + [s[0]]);
      assert val + [s[0]] + s[1..] == val + s;
    }
  }

  lemma NumberTextDigits(n: int)
    ensures forall i :: 0 <= i < |NumberText(n)| ==> IsDigit(NumberText(n)[i]) || NumberText(n)[i] == '-'
  {
    DecimalReads(Magnitude(n));
  }

  lemma NumberReads(n: Long, rest: string)
    requires rest != [] && EndsNumber(rest[0])
    ensures NumberLoop(NumberText(n) + rest, "") == Done(Integral(n), rest, true)
  {
    var t := NumberText(n);
    NumberTextDigits(n);
    NumberLoopSkips(t, rest, "");
    assert "" + t == t;
    NumberTextReads(n);
    NumberEnds(t, n, rest);
  }

  lemma {:induction false} NumberEnds(t: string, n: Long, rest: string)
    requires ToLong(t) == Some(n) && rest != [] && EndsNumber(rest[0])
    ensures NumberLoop(rest, t) == Done(Integral(n), rest, true)
  {
    var c := rest[0];
    assert c != '-' && !IsDigit(c) && c != '.' && c != 'E' && c != 'e';
  }

  // ----- Values -----

  /** A key that is the escaped form of an untagged text; in particular, any untagged key without special characters. */
  ghost predicate KeyOk(k: string) {
    exists t :: Escape(t) == k && !Tagged(t)
  }

  lemma PlainParts(c: char, more: string)
    requires Plain(EscapeChar(c) + more)
    ensures Plain(more) && EscapeChar(c) == [c]
  {
    var e := EscapeChar(c);
    assert forall i :: 0 <= i < |more| ==> more[i] == (e + more)[|e| + i];
    assert (e + more)[0] == e[0];
  }

  lemma {:induction false} OnlyPlainIsPlainEscaped(t: string)
    requires Plain(Escape(t))
    ensures Escape(t) == t
  {
    if t != [] {
      PlainParts(t[0], Escape(t[1..]));
      OnlyPlainIsPlainEscaped(t[1..]);
    }
  }

  lemma PlainKeyOk(k: string)
    requires Plain(k)
    ensures KeyOk(k) <==> !Tagged(k)
  {
    PlainEscapes(k);
    if t :| Escape(t) == k && !Tagged(t) {
      OnlyPlainIsPlainEscaped(t);
    }
  }

  ghost predicate SortedKeys(ms: seq<Member>) {
    forall i, j :: 0 <= i < j < |ms| ==> Less(ms[i].key, ms[j].key)
  }

  /** The values that survive: no string begins with the hash tag, and the keys are fit to be printed as they are. */
  ghost predicate Clean(v: JSON)
    decreases v
  {
    match v
    case String(s) => !Tagged(s)
    case Array(items) => forall i :: 0 <= i < |items| ==> Clean(items[i])
    case Object(ms) => SortedKeys(ms) && forall i :: 0 <= i < |ms| ==> KeyOk(ms[i].key) && Clean(ms[i].value)
    case _ => true
  }

  /** What may follow a value: behind a number, something that ends it. */
  predicate MayFollow(v: JSON, rest: string) {
    v.Integral? ==> rest != [] && EndsNumber(rest[0])
  }

  lemma PrintStarts(v: JSON)
    ensures Print(v) != [] && !IsSpace(Print(v)[0]) && Print(v)[0] != ']' && Print(v)[0] != '}'
  {
    if v.Integral? {
      DecimalReads(Magnitude(v.n));
    }
  }

  lemma SkipNothing(s: string)
    requires s != [] && !IsSpace(s[0])
    ensures SkipSpace(s) == s
  {
  }

  lemma StringReads(s: string, rest: string)
    ensures Next(Quoted(Escape(s)) + rest) == FinishString(s, rest)
  {
    var text := Quoted(Escape(s)) + rest;
    SkipNothing(text);
    assert text[1..] == Escape(s) + "\"" + rest;
    EscapeReads(s, rest, "");
    assert "" + s == s;
  }

  lemma TagHexPlain(h: Hash)
    ensures Plain(HASH_TAG + Hex(h))
  {
    HexReads(h);
  }

  lemma HashFinishes(h: Hash, rest: string)
    ensures FinishString(HASH_TAG + Hex(h), rest) == Done(HashValue(h), rest, true)
  {
    var s := HASH_TAG + Hex(h);
    HexReads(h);
    assert s[|HASH_TAG|..] == Hex(h);
    assert h[..32] == h;
  }

  lemma HashReads(h: Hash, rest: string)
    ensures Next(Quoted(HASH_TAG + Hex(h)) + rest) == Done(HashValue(h), rest, true)
  {
    var s := HASH_TAG + Hex(h);
    TagHexPlain(h);
    PlainEscapes(s);
    StringReads(s, rest);
    HashFinishes(h, rest);
  }

  lemma NullReads(rest: string)
    ensures Next("null" + rest) == Done(Null, rest, true)
  {
    var text := "null" + rest;
    assert text[..4] == "null" && text[4..] == rest;
  }

  lemma TrueReads(rest: string)
    ensures Next("true" + rest) == Done(Boolean(true), rest, true)
  {
    var text := "true" + rest;
    assert text[..4] == "true" && text[4..] == rest;
  }

  lemma FalseReads(rest: string)
    ensures Next("false" + rest) == Done(Boolean(false), rest, true)
  {
    var text := "false" + rest;
    assert text[..5] == "false" && text[5..] == rest && text[0] == 'f';
  }

  lemma NextIsNumber(s: string)
    requires s != [] && (IsDigit(s[0]) || s[0] == '-')
    ensures Next(s) == NumberLoop(s, "")
  {
    SkipNothing(s);
    var c := s[0];
    assert c != '[' && c != '{' && c != '"' && c != 't' && c != 'f' && c != 'n';
  }

  lemma IntegralReads(n: Long, rest: string)
    requires rest != [] && EndsNumber(rest[0])
    ensures Next(NumberText(n) + rest) == Done(Integral(n), rest, true)
  {
    var text := NumberText(n) + rest;
    NumberTextDigits(n);
    assert text[0] == NumberText(n)[0];
    NextIsNumber(text);
    NumberReads(n, rest);
  }

  lemma LeafReads(v: JSON, rest: string)
    requires !v.Array? && !v.Object? && Clean(v) && MayFollow(v, rest)
    ensures Next(Print(v) + rest) == Done(v, rest, true)
  {
    match v
    case Null => NullReads(rest);
    case Boolean(b) => if b { TrueReads(rest); } else { FalseReads(rest); }
    case Integral(n) => IntegralReads(n, rest);
    case HashValue(h) => HashReads(h, rest);
    case String(s) => StringReads(s, rest);
  }

  /** A key at its place in the text: it comes back as it was printed. */
  lemma KeyReads(k: string, rest: string) returns (t: string)
    requires KeyOk(k)
    ensures Next(Quoted(k) + rest) == Done(String(t), rest, true) && KeyText(String(t)) == k
  {
    t :| Escape(t) == k && !Tagged(t);
    StringReads(t, rest);
  }

  lemma {:induction false} PutAppends(ms: seq<Member>, key: string, value: JSON)
    requires SortedKeys(ms + [Member(key, value)])
    ensures Put(ms, key, value) == ms + [Member(key, value)]
  {
    var m := Member(key, value);
    if ms != [] {
      var all := ms + [m];
      assert all[0] == ms[0] && all[|ms|] == m;
      assert Less(ms[0].key, key);
      LessNotSymmetric(ms[0].key, key);
      assert ms[1..] + [m] == all[1..];
      PutAppends(ms[1..], key, value);
      assert ms == [ms[0]] + ms[1..];
    }
  }

  lemma PutFirst(done: seq<Member>, ms: seq<Member>)
    requires ms != [] && SortedKeys(done + ms)
    ensures Put(done, ms[0].key, ms[0].value) == done + [ms[0]]
  {
    var m := ms[0];
    assert done + [Member(m.key, m.value)] == (done + ms)[..|done| + 1];
    PutAppends(done, m.key, m.value);
  }

  lemma LessNotSymmetric(a: string, b: string)
    requires Less(a, b)
    ensures a != b && !Less(b, a)
  {
    Irreflexive(a);
    if Less(b, a) {
      Transitive(a, b, a);
    }
  }

  /** One turn of the loop of parse_array. */
  lemma ItemTurn(done: seq<JSON>, text: string, v: JSON, after: string)
    requires Next(text) == Done(v, after, true)
    requires after != [] && (after[0] == ',' || after[0] == ']')
    ensures ArrayLoop(text, done, true)
         == if after[0] == ',' then ArrayLoop(after[1..], done + [v], true)
            else Done(Array(done + [v]), after[1..], true)
  {
    SkipNothing(after);
  }

  lemma Regroup(first: string, more: string, close: string, rest: string)
    ensures first + close + rest == first + (close + rest)
    ensures first + "," + more + close + rest == first + ("," + (more + close + rest))
  {
  }

  /** The text from the items on. */
  function ItemsText(items: seq<JSON>, rest: string): string {
    PrintItems(items) + "]" + rest
  }

  function MembersText(ms: seq<Member>, rest: string): string {
    PrintMembers(ms) + "}" + rest
  }

  lemma FirstItem(items: seq<JSON>, rest: string) returns (after: string)
    requires items != []
    ensures ItemsText(items, rest) == Print(items[0]) + after && after != []
    ensures |items| == 1 ==> after[0] == ']' && after[1..] == rest
    ensures |items| > 1 ==> after[0] == ',' && after[1..] == ItemsText(items[1..], rest)
  {
    Regroup(Print(items[0]), PrintItems(items[1..]), "]", rest);
    after := if |items| == 1 then "]" + rest else "," + ItemsText(items[1..], rest);
  }

  lemma FirstMember(ms: seq<Member>, rest: string) returns (after: string)
    requires ms != []
    ensures MembersText(ms, rest) == PrintMember(ms[0]) + after && after != []
    ensures |ms| == 1 ==> after[0] == '}' && after[1..] == rest
    ensures |ms| > 1 ==> after[0] == ',' && after[1..] == MembersText(ms[1..], rest)
  {
    Regroup(PrintMember(ms[0]), PrintMembers(ms[1..]), "}", rest);
    after := if |ms| == 1 then "}" + rest else "," + MembersText(ms[1..], rest);
  }

  lemma MoveFirst<T>(done: seq<T>, s: seq<T>)
    requires s != []
    ensures done + [s[0]] + s[1..] == done + s
    ensures |s| == 1 ==> done + [s[0]] == done + s
  {
  }

  lemma {:induction false} ItemsReadBack(done: seq<JSON>, items: seq<JSON>, rest: string)
    requires items != [] && forall i :: 0 <= i < |items| ==> Clean(items[i])
    ensures ArrayLoop(ItemsText(items, rest), done, true) == Done(Array(done + items), rest, true)
    decreases items, 0
  {
    var after := FirstItem(items, rest);
    ReadsBack(items[0], after);
    ItemTurn(done, ItemsText(items, rest), items[0], after);
    MoveFirst(done, items);
    if |items| > 1 {
      ItemsReadBack(done + [items[0]], items[1..], rest);
    }
  }

  lemma {:induction false} MembersReadBack(done: seq<Member>, ms: seq<Member>, rest: string)
    requires ms != [] && SortedKeys(done + ms)
    requires forall i :: 0 <= i < |ms| ==> KeyOk(ms[i].key) && Clean(ms[i].value)
    ensures ObjectLoop(MembersText(ms, rest), done, true) == Done(Object(done + ms), rest, true)
    decreases ms, 0
  {
    var after := FirstMember(ms, rest);
    MemberReadsBack(done, ms[0], after);
    PutFirst(done, ms);
    MoveFirst(done, ms);
    if |ms| > 1 {
      MembersReadBack(done + [ms[0]], ms[1..], rest);
    }
  }

  /** One turn of the loop of parse_object. */
  lemma MemberTurn(done: seq<Member>, m: Member, k: JSON, v: JSON, after: string)
    requires Next(Quoted(m.key) + (":" + (Print(m.value) + after))) == Done(k, ":" + (Print(m.value) + after), true)
    requires Next(Print(m.value) + after) == Done(v, after, true)
    requires after != [] && (after[0] == ',' || after[0] == '}')
    ensures ObjectLoop(PrintMember(m) + after, done, true)
         == if after[0] == ',' then ObjectLoop(after[1..], Put(done, KeyText(k), v), true)
            else Done(Object(Put(done, KeyText(k), v)), after[1..], true)
  {
    MemberTextSplits(m, after);
    var value := Print(m.value) + after;
    var colon := ":" + value;
    SkipNothing(colon);
    assert colon[1..] == value;
    PrintStarts(m.value);
    SkipNothing(value);
    SkipNothing(after);
  }

  lemma MemberTextSplits(m: Member, after: string)
    ensures PrintMember(m) + after == Quoted(m.key) + (":" + (Print(m.value) + after))
  {
  }

  lemma {:induction false} MemberReadsBack(done: seq<Member>, m: Member, after: string)
    requires KeyOk(m.key) && Clean(m.value)
    requires after != [] && (after[0] == ',' || after[0] == '}')
    ensures ObjectLoop(PrintMember(m) + after, done, true)
         == if after[0] == ',' then ObjectLoop(after[1..], Put(done, m.key, m.value), true)
            else Done(Object(Put(done, m.key, m.value)), after[1..], true)
    decreases m, 2
  {
    var t := KeyReads(m.key, ":" + (Print(m.value) + after));
    ReadsBack(m.value, after);
    MemberTurn(done, m, String(t), m.value, after);
  }

  lemma BracketArray(items: seq<JSON>, rest: string)
    ensures items == [] ==> Next(Print(Array(items)) + rest) == Done(Array([]), rest, true)
    ensures items != [] ==> Next(Print(Array(items)) + rest) == ArrayLoop(ItemsText(items, rest), [], true)
  {
    var text := Print(Array(items)) + rest;
    var inner := ItemsText(items, rest);
    assert text[1..] == inner;
    SkipNothing(text);
    if items == [] {
      assert inner[1..] == rest;
    } else {
      PrintStarts(items[0]);
      var after := FirstItem(items, rest);
      assert inner[0] == Print(items[0])[0];
    }
    SkipNothing(inner);
  }

  lemma BracketObject(ms: seq<Member>, rest: string)
    ensures ms == [] ==> Next(Print(Object(ms)) + rest) == Done(Object([]), rest, true)
    ensures ms != [] ==> Next(Print(Object(ms)) + rest) == ObjectLoop(MembersText(ms, rest), [], true)
  {
    var text := Print(Object(ms)) + rest;
    var inner := MembersText(ms, rest);
    assert text[1..] == inner;
    SkipNothing(text);
    if ms == [] {
      assert inner[1..] == rest;
    } else {
      var after := FirstMember(ms, rest);
      assert inner[0] == PrintMember(ms[0])[0];
    }
    SkipNothing(inner);
  }

  /** A printed value, with anything behind it that may follow, is read back whole, and nothing more is consumed. */
  lemma {:induction false} ReadsBack(v: JSON, rest: string)
    requires Clean(v) && MayFollow(v, rest)
    ensures Next(Print(v) + rest) == Done(v, rest, true)
    decreases v, 1
  {
    match v
    case Array(items) =>
      BracketArray(items, rest);
      if items != [] {
        ItemsReadBack([], items, rest);
        assert [] + items == items;
      }
    case Object(ms) =>
      BracketObject(ms, rest);
      if ms != [] {
        assert [] + ms == ms;
        MembersReadBack([], ms, rest);
      }
    case _ => LeafReads(v, rest);
  }

  // ----- What the parser can produce -----

  ghost predicate Escaped(k: string) {
    exists t :: Escape(t) == k
  }

  /** Every key is the escaped form of some text, and the keys ascend. */
  ghost predicate Keyed(v: JSON)
    decreases v
  {
    match v
    case Array(items) => forall i :: 0 <= i < |items| ==> Keyed(items[i])
    case Object(ms) => SortedKeys(ms) && forall i :: 0 <= i < |ms| ==> KeyedMember(ms[i])
    case _ => true
  }

  ghost predicate KeyedMember(m: Member)
    decreases m
  {
    Escaped(m.key) && Keyed(m.value)
  }

  lemma KeyTextEscaped(v: JSON)
    ensures Escaped(KeyText(v))
  {
    match v
    case HashValue(h) =>
      HexReads(h);
      PlainEscapes(Hex(h));
    case Integral(n) =>
      NumberTextDigits(n);
      PlainEscapes(NumberText(n));
    case String(s) =>
    case _ =>
      assert Escape("") == "";
  }

  lemma {:induction false} PutKeepsSorted(ms: seq<Member>, key: string, value: JSON)
    requires SortedKeys(ms)
    ensures SortedKeys(Put(ms, key, value))
    ensures forall m :: m in Put(ms, key, value) ==> m == Member(key, value) || m in ms
  {
    if ms != [] && ms[0].key != key {
      if Less(key, ms[0].key) {
        forall j | 0 <= j < |ms|
          ensures Less(key, ms[j].key)
        {
          if j > 0 {
            Transitive(key, ms[0].key, ms[j].key);
          }
        }
      } else {
        Total(key, ms[0].key);
        PutKeepsSorted(ms[1..], key, value);
        forall m | m in Put(ms[1..], key, value)
          ensures Less(ms[0].key, m.key)
        {
          if m != Member(key, value) {
            var j :| 0 <= j < |ms[1..]| && ms[1..][j] == m;
            assert ms[j + 1] == m;
          }
        }
      }
    }
  }

  lemma PutKeepsKeyed(ms: seq<Member>, key: string, value: JSON)
    requires Keyed(Object(ms)) && Escaped(key) && Keyed(value)
    ensures Keyed(Object(Put(ms, key, value)))
  {
    PutKeepsSorted(ms, key, value);
    var ms' := Put(ms, key, value);
    forall i | 0 <= i < |ms'|
      ensures KeyedMember(ms'[i])
    {
      assert ms'[i] in ms';
    }
  }

  /** Whatever the text, the parser gives only values whose keys ascend and are escaped. */
  lemma {:induction false} NextKeyed(s: string)
    ensures Next(s).Done? ==> Keyed(Next(s).value)
    decreases |s|, 0
  {
    var t := SkipSpace(s);
    if t != [] && t[0] == '[' {
      var u := SkipSpace(t[1..]);
      if u != [] && u[0] != ']' {
        ArrayLoopKeyed(u, [], true);
      }
    } else if t != [] && t[0] == '{' {
      var u := SkipSpace(t[1..]);
      if u != [] && u[0] != '}' {
        ObjectLoopKeyed(u, [], true);
      }
    }
  }

  lemma {:induction false} ArrayLoopKeyed(s: string, items: seq<JSON>, ok: bool)
    requires Keyed(Array(items))
    ensures ArrayLoop(s, items, ok).Done? ==> Keyed(ArrayLoop(s, items, ok).value)
    decreases |s|, 1
  {
    NextKeyed(s);
    if Next(s).Done? {
      var t := SkipSpace(Next(s).rest);
      if t != [] && t[0] == ',' {
        ArrayLoopKeyed(t[1..], items + [Next(s).value], ok && Next(s).ok);
      }
    }
  }

  lemma {:induction false} ObjectLoopKeyed(s: string, ms: seq<Member>, ok: bool)
    requires Keyed(Object(ms))
    ensures ObjectLoop(s, ms, ok).Done? ==> Keyed(ObjectLoop(s, ms, ok).value)
    decreases |s|, 1
  {
    var key := Next(s);
    if key.Done? {
      var t := SkipSpace(key.rest);
      if t != [] && t[0] == ':' {
        var value := Next(SkipSpace(t[1..]));
        NextKeyed(SkipSpace(t[1..]));
        if value.Done? {
          KeyTextEscaped(key.value);
          PutKeepsKeyed(ms, KeyText(key.value), value.value);
          var u := SkipSpace(value.rest);
          if u != [] && u[0] == ',' {
            ObjectLoopKeyed(u[1..], Put(ms, KeyText(key.value), value.value), ok && key.ok && value.ok);
          }
        }
      }
    }
  }

  // ----- Tagged texts do not come back -----

  /** The characters of all strings and keys in a value. */
  function Weight(v: JSON): nat
    decreases v, 1
  {
    match v
    case String(s) => |s|
    case Array(items) => ItemsWeight(items)
    case Object(ms) => MembersWeight(ms)
    case _ => 0
  }

  function ItemsWeight(items: seq<JSON>): nat
    decreases items, 0
  {
    if items == [] then 0 else Weight(items[0]) + ItemsWeight(items[1..])
  }

  function MembersWeight(ms: seq<Member>): nat
    decreases ms, 0
  {
    if ms == [] then 0 else |ms[0].key| + Weight(ms[0].value) + MembersWeight(ms[1..])
  }

  lemma {:induction false} ItemsWeightAppend(items: seq<JSON>, v: JSON)
    ensures ItemsWeight(items + [v]) == ItemsWeight(items) + Weight(v)
  {
    if items == [] {
      assert [v][1..] == [];
    } else {
      assert (items + [v])[1..] == items[1..] + [v];
      ItemsWeightAppend(items[1..], v);
    }
  }

  lemma {:induction false} PutWeight(ms: seq<Member>, key: string, value: JSON)
    ensures MembersWeight(Put(ms, key, value)) <= MembersWeight(ms) + |key| + Weight(value)
  {
    var m := Member(key, value);
    if ms == [] {
      assert [m][1..] == [];
    } else if ms[0].key == key {
      assert ([m] + ms[1..])[1..] == ms[1..];
    } else if Less(key, ms[0].key) {
      assert ([m] + ms)[1..] == ms;
    } else {
      PutWeight(ms[1..], key, value);
      assert ([ms[0]] + Put(ms[1..], key, value))[1..] == Put(ms[1..], key, value);
    }
  }

  lemma {:induction false} EscapeLength(s: string)
    ensures |Escape(s)| >= |s|
  {
    if s != [] {
      EscapeLength(s[1..]);
    }
  }

  lemma {:induction false} EscapePlainPrefix(a: string, b: string)
    requires Plain(a)
    ensures Escape(a + b) == a + Escape(b)
  {
    if a == [] {
      assert a + b == b;
    } else {
      assert (a + b)[1..] == a[1..] + b;
      EscapePlainPrefix(a[1..], b);
      assert [a[0]] + (a[1..] + Escape(b)) == a + Escape(b);
    }
  }

  lemma {:induction false} FromHexLength(s: string)
    ensures |FromHex(s)| == |s| / 2
    decreases |s|
  {
    if |s| >= 2 {
      FromHexLength(s[2..]);
    }
  }

  /** A tagged text loses its tag. */
  lemma TaggedShrinks(t: string, rest: string)
    requires Tagged(t)
    ensures var r := FinishString(t, rest);
            r.Stuck? || (r.rest == rest && r.ok && Weight(r.value) < |t| && |KeyText(r.value)| < |Escape(t)|)
  {
    var hex := t[|HASH_TAG|..];
    assert t == HASH_TAG + hex;
    EscapePlainPrefix(HASH_TAG, hex);
    EscapeLength(hex);
    FromHexLength(hex);
    var r := FinishString(t, rest);
    if r.Done? && r.value.HashValue? {
      HexReads(r.value.h);
    }
  }

  /** Reading a printed value back never adds characters, and only from clean values does it take none away. */
  lemma {:induction false} Shrinks(v: JSON, rest: string)
    requires Keyed(v) && MayFollow(v, rest)
    ensures var r := Next(Print(v) + rest);
            r.Stuck?
            || (r.rest == rest && r.ok && Weight(r.value) <= Weight(v)
                && (Weight(r.value) == Weight(v) ==> Clean(v)))
    decreases v, 1
  {
    match v
    case String(s) =>
      StringReads(s, rest);
      if Tagged(s) {
        TaggedShrinks(s, rest);
      }
    case Array(items) =>
      BracketArray(items, rest);
      if items != [] {
        ItemsShrink([], items, rest);
      }
    case Object(ms) =>
      BracketObject(ms, rest);
      if ms != [] {
        MembersShrink([], ms, rest);
      }
    case _ => LeafReads(v, rest);
  }

  lemma {:induction false} ItemsShrink(done: seq<JSON>, items: seq<JSON>, rest: string)
    requires items != [] && forall i :: 0 <= i < |items| ==> Keyed(items[i])
    ensures var r := ArrayLoop(ItemsText(items, rest), done, true);
            r.Stuck?
            || (r.rest == rest && r.ok && Weight(r.value) <= ItemsWeight(done) + ItemsWeight(items)
                && (Weight(r.value) == ItemsWeight(done) + ItemsWeight(items) ==> Clean(Array(items))))
    decreases items, 0
  {
    var after := FirstItem(items, rest);
    Shrinks(items[0], after);
    var r := Next(ItemsText(items, rest));
    if r.Done? {
      ItemTurn(done, ItemsText(items, rest), r.value, after);
      ItemsWeightAppend(done, r.value);
      if |items| > 1 {
        ItemsShrink(done + [r.value], items[1..], rest);
      } else {
        assert items[1..] == [];
      }
    }
  }

  lemma {:induction false} KeyShrinks(k: string, rest: string)
    requires Escaped(k)
    ensures var r := Next(Quoted(k) + rest);
            r.Stuck?
            || (r.rest == rest && r.ok && |KeyText(r.value)| <= |k|
                && (|KeyText(r.value)| == |k| ==> KeyOk(k)))
  {
    var t :| Escape(t) == k;
    StringReads(t, rest);
    if Tagged(t) {
      TaggedShrinks(t, rest);
    }
  }

  lemma {:induction false} MemberShrinks(done: seq<Member>, m: Member, after: string) returns (done': seq<Member>)
    requires KeyedMember(m) && after != [] && (after[0] == ',' || after[0] == '}')
    ensures var r := ObjectLoop(PrintMember(m) + after, done, true);
            r.Stuck?
            || (MembersWeight(done') <= MembersWeight(done) + |m.key| + Weight(m.value)
                && (MembersWeight(done') == MembersWeight(done) + |m.key| + Weight(m.value) ==>
                      KeyOk(m.key) && Clean(m.value))
                && r == if after[0] == ',' then ObjectLoop(after[1..], done', true)
                        else Done(Object(done'), after[1..], true))
    decreases m, 2
  {
    var colon := ":" + (Print(m.value) + after);
    KeyShrinks(m.key, colon);
    Shrinks(m.value, after);
    var k, v := Next(Quoted(m.key) + colon), Next(Print(m.value) + after);
    if k.Stuck? || v.Stuck? {
      MemberStuck(done, m, after);
      done' := [];
    } else {
      MemberTurn(done, m, k.value, v.value, after);
      PutWeight(done, KeyText(k.value), v.value);
      done' := Put(done, KeyText(k.value), v.value);
    }
  }

  lemma {:induction false} MembersShrink(done: seq<Member>, ms: seq<Member>, rest: string)
    requires ms != [] && SortedKeys(ms) && forall i :: 0 <= i < |ms| ==> KeyedMember(ms[i])
    ensures var r := ObjectLoop(MembersText(ms, rest), done, true);
            r.Stuck?
            || (r.rest == rest && r.ok && Weight(r.value) <= MembersWeight(done) + MembersWeight(ms)
                && (Weight(r.value) == MembersWeight(done) + MembersWeight(ms) ==> Clean(Object(ms))))
    decreases ms, 0
  {
    var after := FirstMember(ms, rest);
    var done' := MemberShrinks(done, ms[0], after);
    if |ms| > 1 {
      MembersShrink(done', ms[1..], rest);
    } else {
      assert ms[1..] == [];
    }
  }

  lemma MemberStuck(done: seq<Member>, m: Member, after: string)
    requires var colon := ":" + (Print(m.value) + after);
             var k := Next(Quoted(m.key) + colon);
             k.Stuck? || (k.rest == colon && Next(Print(m.value) + after).Stuck?)
    ensures ObjectLoop(PrintMember(m) + after, done, true).Stuck?
  {
    MemberTextSplits(m, after);
    var value := Print(m.value) + after;
    var colon := ":" + value;
    SkipNothing(colon);
    assert colon[1..] == value;
    PrintStarts(m.value);
    SkipNothing(value);
  }

  /**
   Load after dump_vector gives the value back, having consumed exactly the printed text, if and only
   if it is clean.
   */
  lemma RoundTripIffClean(v: JSON)
    requires !v.Integral?
    ensures Load(Print(v)) == Done(v, "", true) <==> Clean(v)
  {
    PrintStarts(v);
    assert Print(v) + "" == Print(v);
    if Clean(v) {
      ReadsBack(v, "");
    } else if Load(Print(v)) == Done(v, "", true) {
      NextKeyed(Print(v));
      Shrinks(v, "");
    }
  }

  /** A key without special characters is not enough: one that begins with the hash tag is lost, whatever its value. */
  lemma TaggedKeyIsLost(k: string, v: JSON)
    requires Plain(k) && Tagged(k)
    ensures Load(Print(Object([Member(k, v)]))) != Done(Object([Member(k, v)]), "", true)
  {
    PlainKeyOk(k);
    var o := Object([Member(k, v)]);
    assert o.members[0].key == k;
    RoundTripIffClean(o);
  }
}
