/**
 The functions of src/enclave/utils/Json.h that work step by step: the escaping loop, the
 printer with its separators, and the parsers that advance a shared offset. Each is proved
 against the functions of module Json. A result is `Overrun` where the code would read past
 the end of the buffer or throw.
 */
module JsonText {
  import opened Basics
  import opened Json

  // ----- Printing -----

  lemma {:induction false} EscapeSplits(a: string, b: string)
    ensures Escape(a + b) == Escape(a) + Escape(b)
  {
    if a == [] {
      assert a + b == b;
    } else {
      assert (a + b)[1..] == a[1..] + b;
      EscapeSplits(a[1..], b);
    }
  }

  lemma EscapeMore(s: string, i: nat)
    requires i < |s|
    ensures Escape(s[..i + 1]) == Escape(s[..i]) + EscapeChar(s[i])
  {
    assert s[..i + 1] == s[..i] + [s[i]];
    EscapeSplits(s[..i], [s[i]]);
    assert Escape([s[i]]) == EscapeChar(s[i]) + Escape([s[i]][1..]);
  }

  /** json_escape. */
  method JsonEscape(str: string) returns (output: string)
    ensures output == Escape(str)
  {
    output := "";
    for i := 0 to |str|
      invariant output == Escape(str[..i])
    {
      EscapeMore(str, i);
      match str[i]
      case '"' => output := output + "\\\"";
      case '\\' => output := output + "\\\\";
      case '\U{0008}' => output := output + "\\b";
      case '\U{000C}' => output := output + "\\f";
      case '\n' => output := output + "\\n";
      case '\r' => output := output + "\\r";
      case '\t' => output := output + "\\t";
      case _ => output := output + [str[i]];
    }
    assert str[..|str|] == str;
  }

  lemma CommasAssociate(first: string, more: string, last: string)
    ensures first + "," + (more + "," + last) == first + "," + more + "," + last
  {
  }

  lemma {:induction false} ItemsMore(items: seq<JSON>, i: nat)
    requires i < |items|
    ensures PrintItems(items[..i + 1])
         == if i == 0 then Print(items[0]) else PrintItems(items[..i]) + "," + Print(items[i])
  {
    var s := items[..i + 1];
    if i > 0 {
      assert s[1..] == items[1..][..i] && items[..i][1..] == items[1..][..i - 1];
      ItemsMore(items[1..], i - 1);
      assert items[1..][i - 1] == items[i];
      if i > 1 {
        var more := PrintItems(items[1..][..i - 1]);
        CommasAssociate(Print(items[0]), more, Print(items[i]));
      }
    }
  }

  lemma {:induction false} MembersMore(ms: seq<Member>, i: nat)
    requires i < |ms|
    ensures PrintMembers(ms[..i + 1])
         == if i == 0 then PrintMember(ms[0]) else PrintMembers(ms[..i]) + "," + PrintMember(ms[i])
  {
    var s := ms[..i + 1];
    if i > 0 {
      assert s[1..] == ms[1..][..i] && ms[..i][1..] == ms[1..][..i - 1];
      MembersMore(ms[1..], i - 1);
      assert ms[1..][i - 1] == ms[i];
      if i > 1 {
        var more := PrintMembers(ms[1..][..i - 1]);
        CommasAssociate(PrintMember(ms[0]), more, PrintMember(ms[i]));
      }
    }
  }

  /** dump_vector. */
  method DumpVector(json: JSON) returns (v: string)
    ensures v == Print(json)
    decreases json, 1
  {
    match json
    case Null => v := "null";
    case Boolean(b) => v := if b then "true" else "false";
    case Integral(n) => v := NumberText(n);
    case HashValue(h) => v := "\"" + (HASH_TAG + Hex(h)) + "\"";
    case String(s) =>
      var e := JsonEscape(s);
      v := "\"" + e + "\"";
    case Array(items) => v := DumpArray(items);
    case Object(ms) => v := DumpObject(ms);
  }

  method DumpArray(items: seq<JSON>) returns (v: string)
    ensures v == "[" + PrintItems(items) + "]"
    decreases items, 0
  {
    v := "[";
    var skip := true;
    for i := 0 to |items|
      invariant skip == (i == 0) && v == "[" + PrintItems(items[..i])
    {
      ItemsMore(items, i);
      if !skip {
        v := v + ",";
      }
      var sv := DumpVector(items[i]);
      v := v + sv;
      skip := false;
    }
    assert items[..|items|] == items;
    v := v + "]";
  }

  lemma MemberAppended(v: string, sofar: string, m: Member)
    requires v == "{" + sofar
    ensures v + ("\"" + m.key + "\":") + Print(m.value) == "{" + (sofar + PrintMember(m))
  {
    var text := Print(m.value);
    assert Quoted(m.key) + ":" + text == ("\"" + m.key + "\":") + text;
    assert v + ("\"" + m.key + "\":") + text == "{" + (sofar + (("\"" + m.key + "\":") + text));
  }

  lemma PrintAppend(ms: seq<Member>, m: Member)
    ensures PrintMembers(ms + [m]) == if ms == [] then PrintMember(m) else PrintMembers(ms) + "," + PrintMember(m)
  {
    var all := ms + [m];
    MembersMore(all, |ms|);
    assert all[..|ms| + 1] == all && all[..|ms|] == ms;
  }

  lemma AppendedText(v: string, ms: seq<Member>, m: Member)
    requires v == "{" + PrintMembers(ms)
    ensures ms == [] ==> v + ("\"" + m.key + "\":") + Print(m.value) == "{" + PrintMembers(ms + [m])
    ensures ms != [] ==> v + "," + ("\"" + m.key + "\":") + Print(m.value) == "{" + PrintMembers(ms + [m])
  {
    PrintAppend(ms, m);
    if ms == [] {
      MemberAppended(v, "", m);
      assert "" + PrintMember(m) == PrintMember(m);
    } else {
      assert v + "," == "{" + (PrintMembers(ms) + ",");
      MemberAppended(v + ",", PrintMembers(ms) + ",", m);
    }
  }

  /** One more member behind those that are printed. */
  method AppendMember(v: string, skip: bool, key: string, value: JSON, ghost ms: seq<Member>) returns (v': string)
    requires v == "{" + PrintMembers(ms) && skip == (ms == [])
    ensures v' == "{" + PrintMembers(ms + [Member(key, value)])
    decreases value, 2
  {
    v' := v;
    if !skip {
      v' := v' + ",";
    }
    var sv := DumpVector(value);
    AppendedText(v, ms, Member(key, value));
    v' := v' + ("\"" + key + "\":") + sv;
  }

  method DumpObject(ms: seq<Member>) returns (v: string)
    ensures v == "{" + PrintMembers(ms) + "}"
    decreases ms, 0
  {
    v := "{";
    var skip := true;
    for i := 0 to |ms|
      invariant skip == (i == 0) && v == "{" + PrintMembers(ms[..i])
    {
      assert ms[..i + 1] == ms[..i] + [Member(ms[i].key, ms[i].value)];
      v := AppendMember(v, skip, ms[i].key, ms[i].value, ms[..i]);
      skip := false;
    }
    assert ms[..|ms|] == ms;
    v := v + "}";
  }

  // ----- Parsing -----

  datatype Parse = Overrun | Parsed(value: JSON, offset: nat, ok: bool)

  /** The parse of a buffer stands for the outcome on its text. */
  predicate Meets(data: string, r: Parse, o: Outcome) {
    match r
    case Overrun => o.Stuck?
    case Parsed(v, offset, ok) => offset <= |data| && o == Done(v, data[offset..], ok)
  }

  lemma Onward(data: string, offset: nat, n: nat)
    requires offset + n <= |data|
    ensures data[offset..][n..] == data[offset + n..]
  {
  }

  /** consume_ws. */
  method ConsumeWs(data: string, offset: nat) returns (off: nat)
    requires offset <= |data|
    ensures offset <= off <= |data| && data[off..] == SkipSpace(data[offset..])
  {
    off := offset;
    while off < |data| && IsSpace(data[off])
      invariant offset <= off <= |data| && SkipSpace(data[off..]) == SkipSpace(data[offset..])
    {
      Onward(data, off, 1);
      off := off + 1;
    }
  }

  lemma StringEscapes(s: string, val: string)
    requires |s| >= 2 && s[0] == '\\' && s[1] != 'u'
    ensures StringLoop(s, val) == StringLoop(s[2..], val + [Unescaped(s[1])])
  {
  }

  function Unescaped(c: char): char {
    match c
    case '"' => '"'
    case '/' => '/'
    case 'b' => '\U{0008}'
    case 'f' => '\U{000C}'
    case 'n' => '\n'
    case 'r' => '\r'
    case 't' => '\t'
    case _ => '\\'
  }

  /** The end of parse_string, behind the closing quote. */
  method FinishParse(data: string, val: string, off: nat) returns (r: Parse)
    requires off <= |data|
    ensures Meets(data, r, FinishString(val, data[off..]))
  {
    if !Tagged(val) {
      return Parsed(String(val), off, true);
    }
    var hex := val[|HASH_TAG|..];
    match HexToBytes(hex)
    case None => r := Parsed(String(hex), off, true);
    case Some(bytes) =>
      if |bytes| < 32 {
        r := Overrun;
      } else {
        r := Parsed(HashValue(bytes[..32]), off, true);
      }
  }

  /** The four digits of a unicode escape whose `u` is at `off`; nothing if the end of the buffer comes first. */
  method ScanUnicode(data: string, off: nat, ghost val: string) returns (good: Option<bool>)
    requires off < |data| && data[off] == 'u'
    ensures match good
            case None => UnicodeEscape(data[off..], val, 1).Stuck?
            case Some(true) =>
              off + 5 <= |data|
              && UnicodeEscape(data[off..], val, 1)
                 == StringLoop(data[off + 5..], val + "\\u" + data[off + 1..off + 5])
            case Some(false) => UnicodeEscape(data[off..], val, 1) == Done(String(""), data[off..], false)
  {
    var i := 1;
    while i <= 4
      invariant 1 <= i <= 5 && off + i <= |data|
      invariant UnicodeEscape(data[off..], val, 1) == UnicodeEscape(data[off..], val, i)
    {
      if off + i >= |data| {
        return None;
      }
      if !IsHexDigit(data[off + i]) {
        return Some(false);
      }
      i := i + 1;
    }
    assert data[off..][5..] == data[off + 5..] && data[off..][1..5] == data[off + 1..off + 5];
    good := Some(true);
  }

  /** One turn of a parsing loop: it ends the loop, or goes on with what has been gathered. */
  datatype Turn<A> = Stop(r: Parse) | More(off: nat, gathered: A, ok: bool)

  /** One turn of the loop of parse_string. */
  method ReadChar(data: string, off: nat, val: string) returns (t: Turn<string>)
    requires off <= |data|
    ensures t.Stop? ==> Meets(data, t.r, StringLoop(data[off..], val))
    ensures t.More? ==> off < t.off <= |data| && StringLoop(data[off..], val) == StringLoop(data[t.off..], t.gathered)
  {
    if off == |data| {
      return Stop(Overrun);
    }
    Onward(data, off, 1);
    if data[off] == '"' {
      var r := FinishParse(data, val, off + 1);
      return Stop(r);
    }
    if data[off] != '\\' {
      return More(off + 1, val + [data[off]], true);
    }
    if off + 1 == |data| {
      return Stop(Overrun);
    }
    Onward(data, off, 2);
    if data[off + 1] == 'u' {
      var good := ScanUnicode(data, off + 1, val);
      match good
      case None => return Stop(Overrun);
      case Some(true) => return More(off + 6, val + "\\u" + data[off + 2..off + 6], true);
      case Some(false) => return Stop(Parsed(String(""), off + 1, false));
    }
    StringEscapes(data[off..], val);
    return More(off + 2, val + [Unescaped(data[off + 1])], true);
  }

  /** parse_string, at the opening quote. */
  method ParseString(data: string, offset: nat) returns (r: Parse)
    requires offset < |data| && data[offset] == '"'
    ensures Meets(data, r, StringLoop(data[offset + 1..], ""))
  {
    var val, off := "", offset + 1;
    while true
      invariant offset < off <= |data|
      invariant StringLoop(data[offset + 1..], "") == StringLoop(data[off..], val)
      decreases |data| - off
    {
      var t := ReadChar(data, off, val);
      if t.Stop? {
        return t.r;
      }
      val, off := t.gathered, t.off;
    }
  }

  /** parse_number. */
  method ParseNumber(data: string, offset: nat) returns (r: Parse)
    requires offset <= |data|
    ensures Meets(data, r, NumberLoop(data[offset..], ""))
  {
    var val := "";
    var off := offset;
    while off < |data| && (data[off] == '-' || IsDigit(data[off]))
      invariant offset <= off <= |data|
      invariant NumberLoop(data[offset..], "") == NumberLoop(data[off..], val)
    {
      Onward(data, off, 1);
      val := val + [data[off]];
      off := off + 1;
    }
    if off == |data| || data[off] == '.' || data[off] == 'E' || data[off] == 'e' {
      return Overrun;
    }
    Onward(data, off, 1);
    if !EndsNumber(data[off]) {
      return Parsed(Null, off + 1, false);
    }
    match ToLong(val)
    case None => r := Overrun;
    case Some(n) => r := Parsed(Integral(n), off, true);
  }

  method ParseBoolAt(data: string, offset: nat) returns (r: Parse)
    requires offset <= |data|
    ensures Meets(data, r, ParseBool(data[offset..]))
  {
    match Compare(data[offset..], "true")
    case PastEnd => r := Overrun;
    case Same =>
      Onward(data, offset, 4);
      r := Parsed(Boolean(true), offset + 4, true);
    case Different =>
      match Compare(data[offset..], "false")
      case PastEnd => r := Overrun;
      case Same =>
        Onward(data, offset, 5);
        r := Parsed(Boolean(false), offset + 5, true);
      case Different => r := Parsed(Null, offset, false);
  }

  method ParseNullAt(data: string, offset: nat) returns (r: Parse)
    requires offset <= |data|
    ensures Meets(data, r, ParseNull(data[offset..]))
  {
    match Compare(data[offset..], "null")
    case PastEnd => r := Overrun;
    case Same =>
      Onward(data, offset, 4);
      r := Parsed(Null, offset + 4, true);
    case Different => r := Parsed(Null, offset, false);
  }

  /** parse_next. */
  method ParseNext(data: string, offset: nat) returns (r: Parse)
    requires offset <= |data|
    ensures Meets(data, r, Next(data[offset..]))
    decreases |data| - offset, 0
  {
    var off := ConsumeWs(data, offset);
    if off == |data| {
      return Overrun;
    }
    Onward(data, off, 1);
    assert data[off..][0] == data[off];
    match data[off]
    case '[' => r := ParseArrayAt(data, off);
    case '{' => r := ParseObjectAt(data, off);
    case '"' => r := ParseString(data, off);
    case 't' => r := ParseBoolAt(data, off);
    case 'f' => r := ParseBoolAt(data, off);
    case 'n' => r := ParseNullAt(data, off);
    case c =>
      if IsDigit(c) || c == '-' {
        r := ParseNumber(data, off);
      } else {
        r := Parsed(Null, off, false);
      }
  }

  /** One turn of the loop of parse_array, when the item has been read and the space behind it skipped. */
  lemma ArrayTurn(s: string, items: seq<JSON>, ok: bool, v: JSON, rest: string, ok': bool, t: string)
    requires Next(s) == Done(v, rest, ok') && t == SkipSpace(rest)
    ensures t == [] ==> ArrayLoop(s, items, ok).Stuck?
    ensures t != [] && t[0] == ',' ==> ArrayLoop(s, items, ok) == ArrayLoop(t[1..], items + [v], ok && ok')
    ensures t != [] && t[0] == ']' ==> ArrayLoop(s, items, ok) == Done(Array(items + [v]), t[1..], ok && ok')
    ensures t != [] && t[0] != ',' && t[0] != ']' ==> ArrayLoop(s, items, ok) == Done(Array([]), t, false)
  {
  }

  /** parse_array, at the opening bracket. */
  method ParseArrayAt(data: string, offset: nat) returns (r: Parse)
    requires offset < |data|
    ensures Meets(data, r, ParseArray(data[offset + 1..]))
    decreases |data| - offset - 1, 4
  {
    var off := ConsumeWs(data, offset + 1);
    if off == |data| {
      return Overrun;
    }
    Onward(data, off, 1);
    if data[off] == ']' {
      return Parsed(Array([]), off + 1, true);
    }
    r := ParseItems(data, off);
  }

  method ParseItem(data: string, off: nat, items: seq<JSON>, ok: bool) returns (t: Turn<seq<JSON>>)
    requires off <= |data|
    ensures t.Stop? ==> Meets(data, t.r, ArrayLoop(data[off..], items, ok))
    ensures t.More? ==>
              off < t.off <= |data|
              && ArrayLoop(data[off..], items, ok) == ArrayLoop(data[t.off..], t.gathered, t.ok)
    decreases |data| - off, 1
  {
    var next := ParseNext(data, off);
    if next.Overrun? {
      return Stop(Overrun);
    }
    var at := ConsumeWs(data, next.offset);
    ArrayTurn(data[off..], items, ok, next.value, data[next.offset..], next.ok, data[at..]);
    if at == |data| {
      return Stop(Overrun);
    }
    Onward(data, at, 1);
    if data[at] == ',' {
      return More(at + 1, items + [next.value], ok && next.ok);
    } else if data[at] == ']' {
      return Stop(Parsed(Array(items + [next.value]), at + 1, ok && next.ok));
    } else {
      return Stop(Parsed(Array([]), at, false));
    }
  }

  method ParseItems(data: string, offset: nat) returns (r: Parse)
    requires offset <= |data|
    ensures Meets(data, r, ArrayLoop(data[offset..], [], true))
    decreases |data| - offset, 3
  {
    var off, items, ok := offset, [], true;
    while true
      invariant offset <= off <= |data|
      invariant ArrayLoop(data[offset..], [], true) == ArrayLoop(data[off..], items, ok)
      decreases |data| - off
    {
      var t := ParseItem(data, off, items, ok);
      if t.Stop? {
        return t.r;
      }
      off, items, ok := t.off, t.gathered, t.ok;
    }
  }

  lemma ObjectNoColon(s: string, ms: seq<Member>, ok: bool, k: Outcome, t: string)
    requires Next(s) == k && k.Done? && t == SkipSpace(k.rest)
    ensures t == [] ==> ObjectLoop(s, ms, ok).Stuck?
    ensures t != [] && t[0] != ':' ==> ObjectLoop(s, ms, ok) == Done(Object(ms), t, false)
    ensures t != [] && t[0] == ':' && Next(SkipSpace(t[1..])).Stuck? ==> ObjectLoop(s, ms, ok).Stuck?
  {
  }

  /** One turn of the loop of parse_object, when key and value have been read. */
  lemma ObjectTurn(s: string, ms: seq<Member>, ok: bool, k: Outcome, t: string, v: Outcome, u: string)
    requires Next(s) == k && k.Done? && t == SkipSpace(k.rest) && t != [] && t[0] == ':'
    requires Next(SkipSpace(t[1..])) == v && v.Done? && u == SkipSpace(v.rest)
    ensures ObjectLoop(s, ms, ok)
         == var ms', ok' := Put(ms, KeyText(k.value), v.value), ok && k.ok && v.ok;
            if u == [] then Stuck
            else if u[0] == ',' then ObjectLoop(u[1..], ms', ok')
            else if u[0] == '}' then Done(Object(ms'), u[1..], ok')
            else Done(Object(ms'), u, false)
  {
  }

  /** parse_object, at the opening brace. */
  method ParseObjectAt(data: string, offset: nat) returns (r: Parse)
    requires offset < |data|
    ensures Meets(data, r, ParseObject(data[offset + 1..]))
    decreases |data| - offset - 1, 4
  {
    var off := ConsumeWs(data, offset + 1);
    if off == |data| {
      return Overrun;
    }
    Onward(data, off, 1);
    if data[off] == '}' {
      return Parsed(Object([]), off + 1, true);
    }
    r := ParseMembers(data, off);
  }

  /** The rest of the turn of the loop of parse_object, behind the value. */
  method EndMember(data: string, at: nat, ms: seq<Member>, ok: bool, ghost whole: Outcome)
    returns (r: Turn<seq<Member>>)
    requires at <= |data|
    requires whole == var u := data[at..];
                      if u == [] then Stuck
                      else if u[0] == ',' then ObjectLoop(u[1..], ms, ok)
                      else if u[0] == '}' then Done(Object(ms), u[1..], ok)
                      else Done(Object(ms), u, false)
    ensures r.Stop? ==> Meets(data, r.r, whole)
    ensures r.More? ==> at < r.off <= |data| && whole == ObjectLoop(data[r.off..], r.gathered, r.ok)
  {
    if at == |data| {
      return Stop(Overrun);
    }
    Onward(data, at, 1);
    if data[at] == ',' {
      return More(at + 1, ms, ok);
    } else if data[at] == '}' {
      return Stop(Parsed(Object(ms), at + 1, ok));
    } else {
      return Stop(Parsed(Object(ms), at, false));
    }
  }

  /** The value behind the colon, and what follows it. */
  method ParseValue(data: string, off: nat, ms: seq<Member>, ok: bool, key: JSON, keyOk: bool, colon: nat)
    returns (r: Turn<seq<Member>>)
    requires off <= colon < |data| && data[colon] == ':'
    requires Next(data[off..]).Done? && Next(data[off..]).value == key && Next(data[off..]).ok == keyOk
    requires data[colon..] == SkipSpace(Next(data[off..]).rest)
    ensures r.Stop? ==> Meets(data, r.r, ObjectLoop(data[off..], ms, ok))
    ensures r.More? ==>
              off < r.off <= |data|
              && ObjectLoop(data[off..], ms, ok) == ObjectLoop(data[r.off..], r.gathered, r.ok)
    decreases |data| - off, 1
  {
    ghost var k := Next(data[off..]);
    Onward(data, colon, 1);
    var start := ConsumeWs(data, colon + 1);
    var value := ParseNext(data, start);
    if value.Overrun? {
      ObjectNoColon(data[off..], ms, ok, k, data[colon..]);
      return Stop(Overrun);
    }
    var at := ConsumeWs(data, value.offset);
    ghost var v := Next(data[start..]);
    ObjectTurn(data[off..], ms, ok, k, data[colon..], v, data[at..]);
    var ms' := Put(ms, KeyText(key), value.value);
    r := EndMember(data, at, ms', ok && keyOk && value.ok, ObjectLoop(data[off..], ms, ok));
  }

  method ParseMember(data: string, off: nat, ms: seq<Member>, ok: bool) returns (r: Turn<seq<Member>>)
    requires off <= |data|
    ensures r.Stop? ==> Meets(data, r.r, ObjectLoop(data[off..], ms, ok))
    ensures r.More? ==>
              off < r.off <= |data|
              && ObjectLoop(data[off..], ms, ok) == ObjectLoop(data[r.off..], r.gathered, r.ok)
    decreases |data| - off, 2
  {
    var key := ParseNext(data, off);
    if key.Overrun? {
      return Stop(Overrun);
    }
    var colon := ConsumeWs(data, key.offset);
    ObjectNoColon(data[off..], ms, ok, Next(data[off..]), data[colon..]);
    if colon == |data| {
      return Stop(Overrun);
    }
    if data[colon] != ':' {
      return Stop(Parsed(Object(ms), colon, false));
    }
    r := ParseValue(data, off, ms, ok, key.value, key.ok, colon);
  }

  method ParseMembers(data: string, offset: nat) returns (r: Parse)
    requires offset <= |data|
    ensures Meets(data, r, ObjectLoop(data[offset..], [], true))
    decreases |data| - offset, 3
  {
    var off, ms, ok := offset, [], true;
    while true
      invariant offset <= off <= |data|
      invariant ObjectLoop(data[offset..], [], true) == ObjectLoop(data[off..], ms, ok)
      decreases |data| - off
    {
      var t := ParseMember(data, off, ms, ok);
      if t.Stop? {
        return t.r;
      }
      off, ms, ok := t.off, t.gathered, t.ok;
    }
  }

  /** JSON::Load on a buffer. */
  method LoadBuffer(data: string) returns (r: Parse)
    ensures Meets(data, r, Load(data))
  {
    assert data[0..] == data;
    if |data| == 0 {
      return Parsed(Null, 0, true);
    }
    r := ParseNext(data, 0);
  }
}
