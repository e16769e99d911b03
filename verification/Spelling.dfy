/**
 The language that the parser accepts. A `Tree` is a value together with how it is spelled: white
 space around the tokens, the form of each character in a string, members in any order and repeated,
 keys that need not be strings. The parser succeeds on a text if and only if it begins with a
 spelling, and yields what that means (`LoadIff`). So it ignores the layout (`LayoutIsIgnored`); the
 printed form of a clean value is one of its spellings (`PrintIsSpelling`).
 */
module Spelling {
  import opened Basics
  import opened Order
  import opened Json

  predicate White(s: string) {
    forall i :: 0 <= i < |s| ==> s[i] in [' ', '\t', '\n', '\U{000B}', '\U{000C}', '\r']
  }

  type Pad = s: string | White(s)

  /** A character as it is, behind a backslash, or as four hex digits. */
  datatype Chr = Raw(c: char) | Slashed(c: char) | Unicode(hex: string)

  /** A number is any run of digits and signs; `inner` is what is between the brackets if there is nothing else. */
  datatype Tree =
    | Word(v: JSON)
    | Number(text: string)
    | Text(chars: seq<Chr>)
    | List(inner: Pad, items: seq<Item>)
    | Record(inner: Pad, fields: seq<Field>)

  datatype Item = Item(before: Pad, tree: Tree, after: Pad)

  datatype Field = Field(before: Pad, key: Tree, beforeColon: Pad, afterColon: Pad, tree: Tree, after: Pad)

  // ----- Spellings, each followed by `rest` -----

  function SpellChar(ch: Chr, rest: string): string {
    match ch
    case Raw(c) => [c] + rest
    case Slashed(c) => ['\\', c] + rest
    case Unicode(hex) => ['\\', 'u'] + hex + rest
  }

  function SpellChars(chars: seq<Chr>, rest: string): string {
    if chars == [] then rest else SpellChar(chars[0], SpellChars(chars[1..], rest))
  }

  function SpellText(chars: seq<Chr>, rest: string): string {
    "\"" + SpellChars(chars, "\"" + rest)
  }

  function Spell(t: Tree, rest: string): string
    decreases t, 1
  {
    match t
    case Word(v) => (if v == Boolean(true) then "true" else if v == Boolean(false) then "false" else "null") + rest
    case Number(text) => text + rest
    case Text(chars) => SpellText(chars, rest)
    case List(inner, items) => "[" + (if items == [] then inner + ("]" + rest) else SpellItems(items, rest))
    case Record(inner, fields) => "{" + (if fields == [] then inner + ("}" + rest) else SpellFields(fields, rest))
  }

  function SpellItems(items: seq<Item>, rest: string): string
    requires items != []
    decreases items, 0
  {
    var after := if |items| == 1 then "]" + rest else "," + SpellItems(items[1..], rest);
    items[0].before + Spell(items[0].tree, items[0].after + after)
  }

  function SpellFields(fields: seq<Field>, rest: string): string
    requires fields != []
    decreases fields, 0
  {
    var f := fields[0];
    var after := if |fields| == 1 then "}" + rest else "," + SpellFields(fields[1..], rest);
    f.before + Spell(fields[0].key, f.beforeColon + (":" + (f.afterColon + Spell(fields[0].tree, f.after + after))))
  }

  // ----- Meanings -----

  /** A unicode escape stands for itself, and a backslash before any other character takes that one's place. */
  function MeaningOfChar(ch: Chr): string {
    match ch
    case Raw(c) => [c]
    case Unicode(hex) => "\\u" + hex
    case Slashed(c) =>
      match c
      case '"' => "\""
      case '\\' => "\\"
      case '/' => "/"
      case 'b' => "\U{0008}"
      case 'f' => "\U{000C}"
      case 'n' => "\n"
      case 'r' => "\r"
      case 't' => "\t"
      case _ => "\\"
  }

  function MeaningOfText(chars: seq<Chr>): string {
    if chars == [] then "" else MeaningOfChar(chars[0]) + MeaningOfText(chars[1..])
  }

  /**
   A text is a string unless it begins with the hash tag. Behind the tag an even number of hex digits,
   64 at least, is a hash, of which the first 64 count; fewer cannot be read; what is not an even
   number is again a string.
   */
  function TextValue(s: string): Option<JSON> {
    if !(HASH_TAG <= s) then Some(String(s))
    else
      var hex := s[6..];
      if hex == [] || |hex| % 2 == 1 then Some(String(hex))
      else if |hex| < 64 then None
      else Some(HashValue(seq(32, i requires 0 <= i < 32 => 16 * HexValue(hex[2 * i]) + HexValue(hex[2 * i + 1]))))
  }

  function OrNull(v: Option<JSON>): JSON { if v.Some? then v.value else Null }

  function Meaning(t: Tree): JSON
    decreases t, 1
  {
    match t
    case Word(v) => v
    case Number(text) => if ToLong(text).Some? then Integral(ToLong(text).value) else Null
    case Text(chars) => OrNull(TextValue(MeaningOfText(chars)))
    case List(_, items) => Array(MeaningOfItems(items))
    case Record(_, fields) => Object(MeaningOfFields(fields, []))
  }

  function MeaningOfItems(items: seq<Item>): seq<JSON>
    decreases items, 0
  {
    if items == [] then [] else [Meaning(items[0].tree)] + MeaningOfItems(items[1..])
  }

  /** The members so far, and then those of the fields. */
  function MeaningOfFields(fields: seq<Field>, done: seq<Member>): seq<Member>
    decreases fields, 0
  {
    if fields == [] then done
    else MeaningOfFields(fields[1..], Put(done, KeyText(Meaning(fields[0].key)), Meaning(fields[0].tree)))
  }

  /** Keys are kept as text; strings in their escaped form. */
  function KeyOf(f: Field): string { KeyText(Meaning(f.key)) }

  // ----- Trees that can be read -----

  predicate Legal(ch: Chr) {
    match ch
    case Raw(c) => c != '"' && c != '\\'
    case Slashed(c) => c != 'u'
    case Unicode(hex) => |hex| == 4 && forall i :: 0 <= i < 4 ==> hex[i] in "0123456789abcdefABCDEF"
  }

  predicate LegalText(chars: seq<Chr>) {
    (forall i :: 0 <= i < |chars| ==> Legal(chars[i])) && TextValue(MeaningOfText(chars)).Some?
  }

  predicate LegalNumber(text: string) {
    (forall i :: 0 <= i < |text| ==> text[i] in "-0123456789") && ToLong(text).Some?
  }

  predicate LegalTree(t: Tree)
    decreases t
  {
    match t
    case Word(v) => v.Null? || v.Boolean?
    case Number(text) => LegalNumber(text)
    case Text(chars) => LegalText(chars)
    case List(_, items) => forall i :: 0 <= i < |items| ==> LegalTree(items[i].tree)
    case Record(_, fields) => forall i :: 0 <= i < |fields| ==> LegalField(fields[i])
  }

  /** A colon does not end a number. */
  predicate LegalField(f: Field)
    decreases f
  {
    LegalTree(f.key) && LegalTree(f.tree) && (f.key.Number? ==> f.beforeColon != "")
  }

  // ----- White space -----

  lemma {:induction false} SkipsPad(p: Pad, s: string)
    ensures SkipSpace(p + s) == SkipSpace(s)
  {
    if p == [] {
      assert p + s == s;
    } else {
      assert (p + s)[1..] == p[1..] + s;
      SkipsPad(p[1..], s);
    }
  }

  lemma {:induction false} SkipTwice(s: string)
    ensures SkipSpace(SkipSpace(s)) == SkipSpace(s)
  {
    if s != [] && IsSpace(s[0]) {
      SkipTwice(s[1..]);
    }
  }

  lemma NextSkips(s: string, s': string)
    requires SkipSpace(s) == SkipSpace(s')
    ensures Next(s) == Next(s')
  {
  }

  lemma LoopsSkip(s: string, s': string)
    requires SkipSpace(s) == SkipSpace(s')
    ensures ArrayLoop(s, [], true) == ArrayLoop(s', [], true)
    ensures ObjectLoop(s, [], true) == ObjectLoop(s', [], true)
  {
    NextSkips(s, s');
  }

  // ----- Strings -----

  lemma CharReads(ch: Chr, rest: string, val: string)
    requires Legal(ch)
    ensures StringLoop(SpellChar(ch, rest), val) == StringLoop(rest, val + MeaningOfChar(ch))
  {
    var s := SpellChar(ch, rest);
    match ch
    case Raw(c) => assert s[1..] == rest;
    case Slashed(c) => assert s[2..] == rest;
    case Unicode(hex) => UnicodeReads(hex, rest, val);
  }

  lemma {:induction false} FourDigits(u: string, val: string, i: nat)
    requires |u| >= 5 && 1 <= i <= 5 && forall j :: 1 <= j < 5 ==> IsHexDigit(u[j])
    ensures UnicodeEscape(u, val, i) == StringLoop(u[5..], val + "\\u" + u[1..5])
    decreases 5 - i
  {
    if i < 5 {
      FourDigits(u, val, i + 1);
    }
  }

  lemma HexDigitsAre(c: char)
    ensures c in "0123456789abcdefABCDEF" <==> IsHexDigit(c)
  {
  }

  /** The value of a hex digit in either case, and what the printer writes for it; other characters count as zero. */
  lemma HexValueIs(c: char, d: nat)
    requires d < 16
    ensures c == "0123456789abcdef"[d] || c == "0123456789ABCDEF"[d] <==> IsHexDigit(c) && HexValue(c) == d
    ensures !IsHexDigit(c) ==> HexValue(c) == 0
    ensures HexDigit(d) == "0123456789abcdef"[d]
  {
  }

  lemma UnicodeSplits(hex: string, rest: string)
    requires |hex| == 4
    ensures var s := SpellChar(Unicode(hex), rest);
            |s| >= 6 && s[0] == '\\' && s[1] == 'u' && s[1..][1..5] == hex && s[1..][5..] == rest
  {
    var u := SpellChar(Unicode(hex), rest)[1..];
    assert u == ['u'] + hex + rest;
    assert u[1..5] == hex && u[5..] == rest;
  }

  lemma HexIsHex(hex: string, u: string)
    requires Legal(Unicode(hex)) && |u| >= 5 && u[1..5] == hex
    ensures forall j :: 1 <= j < 5 ==> IsHexDigit(u[j])
  {
    forall j | 1 <= j < 5
      ensures IsHexDigit(u[j])
    {
      assert u[j] == u[1..5][j - 1];
      HexDigitsAre(hex[j - 1]);
    }
  }

  lemma {:induction false} UnicodeTurn(s: string, val: string)
    requires |s| >= 2 && s[0] == '\\' && s[1] == 'u'
    ensures StringLoop(s, val) == UnicodeEscape(s[1..], val, 1)
  {
  }

  lemma {:induction false} UnicodeReads(hex: string, rest: string, val: string)
    requires Legal(Unicode(hex))
    ensures StringLoop(SpellChar(Unicode(hex), rest), val) == StringLoop(rest, val + MeaningOfChar(Unicode(hex)))
  {
    var s := SpellChar(Unicode(hex), rest);
    UnicodeSplits(hex, rest);
    HexIsHex(hex, s[1..]);
    FourDigits(s[1..], val, 1);
    UnicodeTurn(s, val);
    Associates(val, "\\u", hex);
  }

  lemma QuoteEnds(rest: string, val: string)
    ensures StringLoop("\"" + rest, val) == FinishString(val, rest)
  {
    assert ("\"" + rest)[1..] == rest;
  }

  lemma {:induction false} CharsRead(chars: seq<Chr>, rest: string, val: string)
    requires forall i :: 0 <= i < |chars| ==> Legal(chars[i])
    ensures StringLoop(SpellChars(chars, rest), val) == StringLoop(rest, val + MeaningOfText(chars))
    decreases |chars|
  {
    if chars == [] {
      assert val + "" == val;
    } else {
      var c, text := MeaningOfChar(chars[0]), MeaningOfText(chars[1..]);
      CharReads(chars[0], SpellChars(chars[1..], rest), val);
      CharsRead(chars[1..], rest, val + c);
      Associates(val, c, text);
    }
  }

  lemma {:induction false} FromHexAt(hex: string, i: nat)
    requires 2 * i + 1 < |hex|
    ensures i < |FromHex(hex)| && FromHex(hex)[i] == 16 * HexValue(hex[2 * i]) + HexValue(hex[2 * i + 1])
    decreases |hex|
  {
    if i > 0 {
      var more := hex[2..];
      FromHexAt(more, i - 1);
      assert more[2 * (i - 1)] == hex[2 * i] && more[2 * (i - 1) + 1] == hex[2 * i + 1];
    }
  }

  /** How the end of parse_string takes a text. */
  lemma Finishes(text: string, rest: string)
    ensures FinishString(text, rest)
         == match TextValue(text) case None => Stuck case Some(v) => Done(v, rest, true)
  {
    if Tagged(text) {
      var hex := text[6..];
      FromHexLength(hex);
      if |hex| % 2 == 0 && |hex| >= 64 {
        forall i | 0 <= i < 32
          ensures FromHex(hex)[i] == 16 * HexValue(hex[2 * i]) + HexValue(hex[2 * i + 1])
        {
          FromHexAt(hex, i);
        }
        assert FromHex(hex)[..32] == TextValue(text).value.h;
      }
    }
  }

  lemma TextReads(chars: seq<Chr>, rest: string)
    requires LegalText(chars)
    ensures Next(SpellText(chars, rest)) == Done(Meaning(Text(chars)), rest, true)
  {
    var s := SpellText(chars, rest);
    SkipNothing(s);
    assert s[1..] == SpellChars(chars, "\"" + rest);
    CharsRead(chars, "\"" + rest, "");
    QuoteEnds(rest, MeaningOfText(chars));
    assert "" + MeaningOfText(chars) == MeaningOfText(chars);
    Finishes(MeaningOfText(chars), rest);
  }

  // ----- Numbers -----

  lemma SignsAndDigits(c: char)
    ensures c in "-0123456789" <==> IsDigit(c) || c == '-'
  {
  }

  lemma NumberStarts(text: string)
    requires LegalNumber(text)
    ensures text != [] && (IsDigit(text[0]) || text[0] == '-')
    ensures forall i :: 0 <= i < |text| ==> IsDigit(text[i]) || text[i] == '-'
  {
    forall i | 0 <= i < |text|
      ensures IsDigit(text[i]) || text[i] == '-'
    {
      SignsAndDigits(text[i]);
    }
  }

  lemma {:induction false} NumberTextReadsOn(text: string, rest: string)
    requires LegalNumber(text) && rest != [] && EndsNumber(rest[0])
    ensures Next(text + rest) == Done(Meaning(Number(text)), rest, true)
  {
    NumberStarts(text);
    assert (text + rest)[0] == text[0];
    NextIsNumber(text + rest);
    NumberLoopSkips(text, rest, "");
    assert "" + text == text;
    NumberEnds(text, ToLong(text).value, rest);
  }

  // ----- Values -----

  lemma SpellStarts(t: Tree, rest: string)
    requires LegalTree(t)
    ensures var s := Spell(t, rest); s != [] && !IsSpace(s[0]) && s[0] != ']' && s[0] != '}'
  {
    if t.Word? {
      PrintStarts(t.v);
    } else if t.Number? {
      NumberStarts(t.text);
    }
  }

  /** White space, then a comma or a closing bracket, may follow any value. */
  lemma CloserFollows(v: JSON, p: Pad, after: string)
    requires after != [] && (after[0] == ',' || after[0] == ']' || after[0] == '}')
    ensures MayFollow(v, p + after)
  {
  }

  /** One turn of the loop of parse_array, from whatever it reads next. */
  lemma PaddedItemTurn(done: seq<JSON>, s: string, v: JSON, p: Pad, after: string)
    requires Next(s) == Done(v, p + after, true)
    requires after != [] && (after[0] == ',' || after[0] == ']')
    ensures ArrayLoop(s, done, true)
         == if after[0] == ',' then ArrayLoop(after[1..], done + [v], true)
            else Done(Array(done + [v]), after[1..], true)
  {
    SkipsPad(p, after);
    SkipNothing(after);
  }

  /** One turn of the loop of parse_object. */
  lemma PaddedFieldTurn(done: seq<Member>, s: string, k: JSON, p: Pad, value: string, v: JSON, q: Pad, after: string)
    requires Next(s) == Done(k, p + (":" + value), true) && Next(SkipSpace(value)) == Done(v, q + after, true)
    requires after != [] && (after[0] == ',' || after[0] == '}')
    ensures ObjectLoop(s, done, true)
         == if after[0] == ',' then ObjectLoop(after[1..], Put(done, KeyText(k), v), true)
            else Done(Object(Put(done, KeyText(k), v)), after[1..], true)
  {
    var colon := ":" + value;
    SkipsPad(p, colon);
    SkipNothing(colon);
    assert colon[1..] == value;
    SkipsPad(q, after);
    SkipNothing(after);
  }

  lemma Associates<T>(a: seq<T>, b: seq<T>, c: seq<T>)
    ensures a + b + c == a + (b + c)
  {
  }

  lemma MoveMeaning(done: seq<JSON>, items: seq<Item>)
    requires items != []
    ensures done + [Meaning(items[0].tree)] + MeaningOfItems(items[1..]) == done + MeaningOfItems(items)
    ensures |items| == 1 ==> done + [Meaning(items[0].tree)] == done + MeaningOfItems(items)
  {
    if |items| == 1 {
      assert MeaningOfItems(items[1..]) == [];
    }
    Associates(done, [Meaning(items[0].tree)], MeaningOfItems(items[1..]));
  }

  lemma {:induction false} ItemReads(done: seq<JSON>, item: Item, after: string)
    requires LegalTree(item.tree) && after != [] && (after[0] == ',' || after[0] == ']')
    ensures var s := item.before + Spell(item.tree, item.after + after);
            var done' := done + [Meaning(item.tree)];
            ArrayLoop(s, done, true)
            == if after[0] == ',' then ArrayLoop(after[1..], done', true) else Done(Array(done'), after[1..], true)
    decreases item, 2
  {
    var s := Spell(item.tree, item.after + after);
    CloserFollows(Meaning(item.tree), item.after, after);
    TreeReads(item.tree, item.after + after);
    SkipsPad(item.before, s);
    NextSkips(item.before + s, s);
    PaddedItemTurn(done, item.before + s, Meaning(item.tree), item.after, after);
  }

  lemma {:induction false} ItemsRead(done: seq<JSON>, items: seq<Item>, rest: string)
    requires items != [] && forall i :: 0 <= i < |items| ==> LegalTree(items[i].tree)
    ensures ArrayLoop(SpellItems(items, rest), done, true) == Done(Array(done + MeaningOfItems(items)), rest, true)
    decreases items, 0
  {
    var after := if |items| == 1 then "]" + rest else "," + SpellItems(items[1..], rest);
    ItemReads(done, items[0], after);
    MoveMeaning(done, items);
    if |items| > 1 {
      assert after[1..] == SpellItems(items[1..], rest);
      ItemsRead(done + [Meaning(items[0].tree)], items[1..], rest);
    } else {
      assert after[1..] == rest && items[1..] == [];
    }
  }

  lemma {:induction false} FieldReads(done: seq<Member>, f: Field, after: string)
    requires LegalField(f)
    requires after != [] && (after[0] == ',' || after[0] == '}')
    ensures var value := f.afterColon + Spell(f.tree, f.after + after);
            var s := f.before + Spell(f.key, f.beforeColon + (":" + value));
            var done' := Put(done, KeyOf(f), Meaning(f.tree));
            ObjectLoop(s, done, true)
            == if after[0] == ',' then ObjectLoop(after[1..], done', true) else Done(Object(done'), after[1..], true)
    decreases f, 2
  {
    var spelled := Spell(f.tree, f.after + after);
    var value := f.afterColon + spelled;
    var colon := f.beforeColon + (":" + value);
    CloserFollows(Meaning(f.tree), f.after, after);
    TreeReads(f.tree, f.after + after);
    SpellStarts(f.tree, f.after + after);
    SkipsPad(f.afterColon, spelled);
    SkipNothing(spelled);
    KeyEnds(f, value);
    KeyIsRead(f, colon);
    PaddedFieldTurn(done, f.before + Spell(f.key, colon), Meaning(f.key), f.beforeColon, value, Meaning(f.tree),
                    f.after, after);
  }

  lemma KeyEnds(f: Field, value: string)
    requires LegalField(f)
    ensures MayFollow(Meaning(f.key), f.beforeColon + (":" + value))
  {
    if Meaning(f.key).Integral? {
      assert f.key.Number?;
    }
  }

  lemma {:induction false} KeyIsRead(f: Field, colon: string)
    requires LegalTree(f.key) && MayFollow(Meaning(f.key), colon)
    ensures Next(f.before + Spell(f.key, colon)) == Done(Meaning(f.key), colon, true)
    decreases f, 1
  {
    TreeReads(f.key, colon);
    SkipsPad(f.before, Spell(f.key, colon));
    NextSkips(f.before + Spell(f.key, colon), Spell(f.key, colon));
  }

  lemma {:induction false} FieldsRead(done: seq<Member>, fields: seq<Field>, rest: string)
    requires fields != []
    requires forall i :: 0 <= i < |fields| ==> LegalField(fields[i])
    ensures ObjectLoop(SpellFields(fields, rest), done, true)
         == Done(Object(MeaningOfFields(fields, done)), rest, true)
    decreases fields, 0
  {
    var after := if |fields| == 1 then "}" + rest else "," + SpellFields(fields[1..], rest);
    FieldReads(done, fields[0], after);
    if |fields| > 1 {
      assert after[1..] == SpellFields(fields[1..], rest);
      FieldsRead(Put(done, KeyOf(fields[0]), Meaning(fields[0].tree)), fields[1..], rest);
    } else {
      assert after[1..] == rest && fields[1..] == [];
    }
  }

  lemma ListOpens(inner: Pad, items: seq<Item>, rest: string)
    requires forall i :: 0 <= i < |items| ==> LegalTree(items[i].tree)
    ensures Next(Spell(List(inner, items), rest))
         == if items == [] then Done(Array([]), rest, true) else ArrayLoop(SpellItems(items, rest), [], true)
  {
    var s := Spell(List(inner, items), rest);
    SkipNothing(s);
    if items == [] {
      var close := "]" + rest;
      assert s[1..] == inner + close;
      SkipsPad(inner, close);
      SkipNothing(close);
      assert close[1..] == rest;
    } else {
      var text := SpellItems(items, rest);
      assert s[1..] == text;
      var after := if |items| == 1 then "]" + rest else "," + SpellItems(items[1..], rest);
      var spelled := Spell(items[0].tree, items[0].after + after);
      SkipsPad(items[0].before, spelled);
      SpellStarts(items[0].tree, items[0].after + after);
      SkipNothing(spelled);
      LoopsSkip(text, spelled);
    }
  }

  lemma RecordOpens(inner: Pad, fields: seq<Field>, rest: string)
    requires forall i :: 0 <= i < |fields| ==> LegalField(fields[i])
    ensures Next(Spell(Record(inner, fields), rest))
         == if fields == [] then Done(Object([]), rest, true) else ObjectLoop(SpellFields(fields, rest), [], true)
  {
    var s := Spell(Record(inner, fields), rest);
    SkipNothing(s);
    if fields == [] {
      var close := "}" + rest;
      assert s[1..] == inner + close;
      SkipsPad(inner, close);
      SkipNothing(close);
      assert close[1..] == rest;
    } else {
      var f, text := fields[0], SpellFields(fields, rest);
      assert s[1..] == text;
      var after := if |fields| == 1 then "}" + rest else "," + SpellFields(fields[1..], rest);
      var colon := f.beforeColon + (":" + (f.afterColon + Spell(fields[0].tree, f.after + after)));
      var spelled := Spell(fields[0].key, colon);
      SkipsPad(f.before, spelled);
      SpellStarts(f.key, colon);
      SkipNothing(spelled);
      LoopsSkip(text, spelled);
    }
  }

  /** Every legal spelling is read as what it means, and nothing behind it is consumed. */
  lemma {:induction false} TreeReads(t: Tree, rest: string)
    requires LegalTree(t) && MayFollow(Meaning(t), rest)
    ensures Next(Spell(t, rest)) == Done(Meaning(t), rest, true)
    decreases t, 1
  {
    match t
    case Word(v) => LeafReads(v, rest);
    case Number(text) => NumberTextReadsOn(text, rest);
    case Text(chars) => TextReads(chars, rest);
    case List(inner, items) =>
      ListOpens(inner, items, rest);
      if items != [] {
        ItemsRead([], items, rest);
        assert [] + MeaningOfItems(items) == MeaningOfItems(items);
      }
    case Record(inner, fields) =>
      RecordOpens(inner, fields, rest);
      if fields != [] {
        FieldsRead([], fields, rest);
      }
  }

  /** Load, with white space in front: an array or an object is read whatever comes behind it. */
  lemma LoadReads(p: Pad, t: Tree, rest: string)
    requires LegalTree(t) && MayFollow(Meaning(t), rest)
    ensures Load(p + Spell(t, rest)) == Done(Meaning(t), rest, true)
  {
    TreeReads(t, rest);
    SpellStarts(t, rest);
    SkipsPad(p, Spell(t, rest));
    NextSkips(p + Spell(t, rest), Spell(t, rest));
  }

  // ----- Layout -----

  /** The same spelling without white space. */
  function Bare(t: Tree): Tree
    decreases t, 1
  {
    match t
    case List(_, items) => List("", BareItems(items))
    case Record(_, fields) => Record("", BareFields(fields))
    case _ => t
  }

  function BareItems(items: seq<Item>): seq<Item>
    decreases items, 0
  {
    if items == [] then [] else [Item("", Bare(items[0].tree), "")] + BareItems(items[1..])
  }

  function BareFields(fields: seq<Field>): seq<Field>
    decreases fields, 0
  {
    if fields == [] then []
    else [BareField(fields[0])] + BareFields(fields[1..])
  }

  /** Only what ends a number has to stay. */
  function BareField(f: Field): Field
    decreases f, 0
  {
    Field("", Bare(f.key), if f.key.Number? then f.beforeColon else "", "", Bare(f.tree), "")
  }

  lemma {:induction false} BareMeans(t: Tree)
    requires LegalTree(t)
    ensures LegalTree(Bare(t)) && Meaning(Bare(t)) == Meaning(t)
    decreases t, 1
  {
    match t
    case List(_, items) => BareItemsMean(items);
    case Record(_, fields) => BareFieldsMean(fields, []);
    case _ =>
  }

  lemma {:induction false} BareItemsMean(items: seq<Item>)
    requires forall i :: 0 <= i < |items| ==> LegalTree(items[i].tree)
    ensures forall i :: 0 <= i < |BareItems(items)| ==> LegalTree(BareItems(items)[i].tree)
    ensures MeaningOfItems(BareItems(items)) == MeaningOfItems(items)
    decreases items, 0
  {
    if items != [] {
      BareMeans(items[0].tree);
      BareItemsMean(items[1..]);
      assert BareItems(items)[1..] == BareItems(items[1..]);
    }
  }

  lemma {:induction false} BareFieldMeans(f: Field)
    requires LegalField(f)
    ensures var b := BareField(f);
            LegalField(b) && KeyOf(b) == KeyOf(f) && Meaning(b.tree) == Meaning(f.tree)
    decreases f, 0
  {
    BareMeans(f.key);
    BareMeans(f.tree);
  }

  lemma {:induction false} BareFieldsMean(fields: seq<Field>, done: seq<Member>)
    requires forall i :: 0 <= i < |fields| ==> LegalField(fields[i])
    ensures var bare := BareFields(fields);
            (forall i :: 0 <= i < |bare| ==> LegalField(bare[i]))
            && MeaningOfFields(bare, done) == MeaningOfFields(fields, done)
    decreases fields, 0
  {
    if fields != [] {
      BareFieldMeans(fields[0]);
      BareFieldsMean(fields[1..], Put(done, KeyOf(fields[0]), Meaning(fields[0].tree)));
      assert BareFields(fields)[1..] == BareFields(fields[1..]);
    }
  }

  /**
   White space does not matter: if a spelling without its white space is the printed text of a clean
   array or object, then the spelling, behind any further white space, is loaded as that value.
   */
  lemma LayoutIsIgnored(v: JSON, p: Pad, t: Tree, rest: string)
    requires Clean(v) && LegalTree(t) && (t.List? || t.Record?) && Spell(Bare(t), "") == Print(v)
    ensures Load(p + Spell(t, rest)) == Done(v, rest, true)
  {
    BareMeans(t);
    TreeReads(Bare(t), "");
    assert Print(v) + "" == Print(v);
    PrintedContainer(v, Bare(t));
    ReadsBack(v, "");
    LoadReads(p, t, rest);
  }

  lemma PrintedContainer(v: JSON, t: Tree)
    requires (t.List? || t.Record?) && Spell(t, "") == Print(v)
    ensures !v.Integral?
  {
    if v.Integral? {
      NumberTextDigits(v.n);
      PrintStarts(v);
    }
  }

  // ----- Printed text is a spelling -----

  /** How json_escape spells a character. */
  function Escaping(c: char): Chr {
    match c
    case '"' => Slashed('"')
    case '\\' => Slashed('\\')
    case '\U{0008}' => Slashed('b')
    case '\U{000C}' => Slashed('f')
    case '\n' => Slashed('n')
    case '\r' => Slashed('r')
    case '\t' => Slashed('t')
    case _ => Raw(c)
  }

  function Escapings(s: string): (chars: seq<Chr>)
    ensures forall i :: 0 <= i < |chars| ==> Legal(chars[i])
  {
    if s == [] then [] else [Escaping(s[0])] + Escapings(s[1..])
  }

  lemma {:induction false} EscapingsSpell(s: string, rest: string)
    ensures SpellChars(Escapings(s), rest) == Escape(s) + rest && MeaningOfText(Escapings(s)) == s
  {
    if s != [] {
      EscapingsSpell(s[1..], rest);
      assert Escapings(s)[1..] == Escapings(s[1..]);
      EscapingSpells(s[0], Escape(s[1..]) + rest);
      Associates(EscapeChar(s[0]), Escape(s[1..]), rest);
      assert s == [s[0]] + s[1..];
    }
  }

  lemma EscapingSpells(c: char, rest: string)
    ensures SpellChar(Escaping(c), rest) == EscapeChar(c) + rest && MeaningOfChar(Escaping(c)) == [c]
  {
  }

  lemma SpellsQuoted(text: string, rest: string)
    ensures SpellText(Escapings(text), rest) == Quoted(Escape(text)) + rest
    ensures MeaningOfText(Escapings(text)) == text
    ensures TextValue(text).Some? ==> LegalText(Escapings(text))
  {
    EscapingsSpell(text, "\"" + rest);
  }

  lemma SpellsHash(h: Hash, rest: string)
    ensures var chars := Escapings(HASH_TAG + Hex(h));
            && LegalText(chars) && Meaning(Text(chars)) == HashValue(h)
            && SpellText(chars, rest) == Print(HashValue(h)) + rest
  {
    var text := HASH_TAG + Hex(h);
    HashFinishes(h, "");
    Finishes(text, "");
    SpellsQuoted(text, rest);
    TagHexPlain(h);
    PlainEscapes(text);
  }

  lemma SpellsNumber(n: Long)
    ensures LegalNumber(NumberText(n)) && Meaning(Number(NumberText(n))) == Integral(n)
  {
    NumberTextDigits(n);
    NumberTextReads(n);
    forall i | 0 <= i < |NumberText(n)|
      ensures NumberText(n)[i] in "-0123456789"
    {
      SignsAndDigits(NumberText(n)[i]);
    }
  }

  /** Every clean value has its printed text as a spelling, without white space. */
  lemma {:induction false} PrintIsSpelling(v: JSON) returns (t: Tree)
    requires Clean(v)
    ensures LegalTree(t) && Meaning(t) == v && Bare(t) == t
    ensures forall rest :: Spell(t, rest) == Print(v) + rest
    ensures v.Array? ==> t.List?
    ensures v.Object? ==> t.Record?
    decreases v, 1
  {
    match v
    case Array(items) =>
      var its := ItemsAreSpelled(items);
      t := List("", its);
      forall rest ensures Spell(t, rest) == Print(v) + rest {
        ListSpells(items, its, rest);
      }
    case Object(ms) =>
      assert [] + ms == ms;
      var fs := MembersAreSpelled(ms, []);
      t := Record("", fs);
      forall rest ensures Spell(t, rest) == Print(v) + rest {
        RecordSpells(ms, fs, rest);
      }
    case _ => t := LeafIsSpelled(v);
  }

  lemma LeafIsSpelled(v: JSON) returns (t: Tree)
    requires Clean(v) && !v.Array? && !v.Object?
    ensures LegalTree(t) && Meaning(t) == v && Bare(t) == t
    ensures forall rest :: Spell(t, rest) == Print(v) + rest
  {
    match v
    case String(s) => t := StringIsSpelled(s);
    case HashValue(h) => t := HashIsSpelled(h);
    case Integral(n) =>
      SpellsNumber(n);
      t := Number(NumberText(n));
    case _ => t := Word(v);
  }

  lemma StringIsSpelled(s: string) returns (t: Tree)
    requires !Tagged(s)
    ensures t.Text? && LegalTree(t) && Meaning(t) == String(s)
    ensures forall rest :: Spell(t, rest) == Print(String(s)) + rest
  {
    t := Text(Escapings(s));
    forall rest ensures Spell(t, rest) == Print(String(s)) + rest {
      SpellsQuoted(s, rest);
    }
    SpellsQuoted(s, "");
  }

  lemma HashIsSpelled(h: Hash) returns (t: Tree)
    ensures t.Text? && LegalTree(t) && Meaning(t) == HashValue(h)
    ensures forall rest :: Spell(t, rest) == Print(HashValue(h)) + rest
  {
    t := Text(Escapings(HASH_TAG + Hex(h)));
    forall rest ensures Spell(t, rest) == Print(HashValue(h)) + rest {
      SpellsHash(h, rest);
    }
    SpellsHash(h, "");
  }

  lemma ListSpells(items: seq<JSON>, its: seq<Item>, rest: string)
    requires |its| == |items| && (items != [] ==> SpellItems(its, rest) == ItemsText(items, rest))
    ensures Spell(List("", its), rest) == Print(Array(items)) + rest
  {
    Associates("[", PrintItems(items) + "]", rest);
  }

  lemma RecordSpells(ms: seq<Member>, fs: seq<Field>, rest: string)
    requires |fs| == |ms| && (ms != [] ==> SpellFields(fs, rest) == MembersText(ms, rest))
    ensures Spell(Record("", fs), rest) == Print(Object(ms)) + rest
  {
    Associates("{", PrintMembers(ms) + "}", rest);
  }

  lemma {:induction false} ItemsAreSpelled(items: seq<JSON>) returns (its: seq<Item>)
    requires forall i :: 0 <= i < |items| ==> Clean(items[i])
    ensures (forall i :: 0 <= i < |its| ==> LegalTree(its[i].tree)) && |its| == |items|
    ensures MeaningOfItems(its) == items && BareItems(its) == its
    ensures items != [] ==> forall rest :: SpellItems(its, rest) == ItemsText(items, rest)
    decreases items, 0
  {
    if items == [] {
      its := [];
    } else {
      var t := PrintIsSpelling(items[0]);
      var more := ItemsAreSpelled(items[1..]);
      its := [Item("", t, "")] + more;
      assert its[1..] == more;
      assert items == [items[0]] + items[1..];
      forall rest ensures SpellItems(its, rest) == ItemsText(items, rest) {
        var after := FirstItem(items, rest);
        var after' := if |its| == 1 then "]" + rest else "," + SpellItems(more, rest);
        assert after == [after[0]] + after[1..];
        assert "" + after' == after;
      }
    }
  }

  lemma {:induction false} MembersAreSpelled(ms: seq<Member>, done: seq<Member>) returns (fs: seq<Field>)
    requires SortedKeys(done + ms)
    requires forall i :: 0 <= i < |ms| ==> KeyOk(ms[i].key) && Clean(ms[i].value)
    ensures (forall i :: 0 <= i < |fs| ==> LegalField(fs[i])) && |fs| == |ms|
    ensures MeaningOfFields(fs, done) == done + ms && BareFields(fs) == fs
    ensures ms != [] ==> forall rest :: SpellFields(fs, rest) == MembersText(ms, rest)
    decreases ms, 0
  {
    if ms == [] {
      fs := [];
    } else {
      var t := PrintIsSpelling(ms[0].value);
      var k :| Escape(k) == ms[0].key && !Tagged(k);
      PutFirst(done, ms);
      MoveFirst(done, ms);
      var more := MembersAreSpelled(ms[1..], done + [ms[0]]);
      var f := KeyedField(k, t);
      fs := [f] + more;
      assert fs[1..] == more;
      forall rest ensures SpellFields(fs, rest) == MembersText(ms, rest) {
        FieldsSpell(ms, fs, k, rest);
      }
    }
  }

  lemma KeyedField(k: string, t: Tree) returns (f: Field)
    requires !Tagged(k) && LegalTree(t) && Bare(t) == t
    ensures f == Field("", Text(Escapings(k)), "", "", t, "")
    ensures LegalField(f) && KeyOf(f) == Escape(k) && BareField(f) == f
  {
    f := Field("", Text(Escapings(k)), "", "", t, "");
    SpellsQuoted(k, "");
  }

  lemma {:induction false} FieldsSpell(ms: seq<Member>, fs: seq<Field>, k: string, rest: string)
    requires ms != [] && |fs| == |ms| && Escape(k) == ms[0].key
    requires fs[0] == Field("", Text(Escapings(k)), "", "", fs[0].tree, "")
    requires forall more :: Spell(fs[0].tree, more) == Print(ms[0].value) + more
    requires |ms| > 1 ==> SpellFields(fs[1..], rest) == MembersText(ms[1..], rest)
    ensures SpellFields(fs, rest) == MembersText(ms, rest)
  {
    var after := FirstMember(ms, rest);
    var after' := if |fs| == 1 then "}" + rest else "," + SpellFields(fs[1..], rest);
    assert after == [after[0]] + after[1..];
    assert after' == after;
    FieldIsSpelled(ms[0], fs[0], k, after);
  }

  lemma FieldIsSpelled(m: Member, f: Field, k: string, after: string)
    requires Escape(k) == m.key && f == Field("", Text(Escapings(k)), "", "", f.tree, "")
    requires Spell(f.tree, after) == Print(m.value) + after
    ensures f.before + Spell(f.key, f.beforeColon + (":" + (f.afterColon + Spell(f.tree, f.after + after))))
         == PrintMember(m) + after
  {
    var value := Print(m.value) + after;
    assert "" + after == after && "" + value == value && "" + (":" + value) == ":" + value;
    SpellsQuoted(k, ":" + value);
    MemberTextSplits(m, after);
  }

  // ----- Repeated members -----

  /** The field says so, and no later one has the same key. */
  ghost predicate Decides(fields: seq<Field>, i: int, m: Member) {
    && 0 <= i < |fields| && KeyOf(fields[i]) == m.key && Meaning(fields[i].tree) == m.value
    && forall j :: i < j < |fields| ==> KeyOf(fields[j]) != m.key
  }

  lemma {:induction false} PutMembers(ms: seq<Member>, key: string, value: JSON, m: Member)
    requires SortedKeys(ms)
    ensures m in Put(ms, key, value) <==> m == Member(key, value) || (m in ms && m.key != key)
  {
    if ms != [] {
      assert ms == [ms[0]] + ms[1..];
      if ms[0].key == key {
        forall j | 1 <= j < |ms|
          ensures ms[j].key != key
        {
          Irreflexive(key);
        }
      } else if Less(key, ms[0].key) {
        forall j | 0 <= j < |ms|
          ensures ms[j].key != key
        {
          Irreflexive(key);
          if j > 0 {
            Transitive(key, ms[0].key, ms[j].key);
          }
        }
      } else {
        PutMembers(ms[1..], key, value, m);
      }
    }
  }

  /** An object has a member exactly if the last field with its key says so, in whatever order the fields come. */
  lemma {:induction false} LastFieldDecides(fields: seq<Field>, done: seq<Member>, m: Member)
    requires SortedKeys(done)
    ensures SortedKeys(MeaningOfFields(fields, done))
    ensures m in MeaningOfFields(fields, done)
       <==> (exists i :: Decides(fields, i, m))
            || (m in done && forall j :: 0 <= j < |fields| ==> KeyOf(fields[j]) != m.key)
    decreases |fields|
  {
    if fields != [] {
      var f, more := fields[0], fields[1..];
      var done' := Put(done, KeyOf(f), Meaning(f.tree));
      PutKeepsSorted(done, KeyOf(f), Meaning(f.tree));
      PutMembers(done, KeyOf(f), Meaning(f.tree), m);
      LastFieldDecides(more, done', m);
      DecidesLater(fields, m);
    }
  }

  lemma DecidesLater(fields: seq<Field>, m: Member)
    requires fields != []
    ensures (exists i :: Decides(fields, i, m))
       <==> Decides(fields, 0, m) || exists i :: Decides(fields[1..], i, m)
  {
    var more := fields[1..];
    if i :| Decides(more, i, m) {
      forall j | i + 1 < j < |fields|
        ensures KeyOf(fields[j]) != m.key
      {
        assert fields[j] == more[j - 1];
      }
      assert Decides(fields, i + 1, m);
    }
    if i :| Decides(fields, i, m) && i != 0 {
      forall j | i - 1 < j < |more|
        ensures KeyOf(more[j]) != m.key
      {
        assert fields[j + 1] == more[j];
      }
      assert Decides(more, i - 1, m);
    }
  }

  // ----- Whatever is read successfully is a spelling -----

  lemma {:induction false} PadSkipped(s: string) returns (p: Pad)
    ensures s == p + SkipSpace(s)
  {
    if s != [] && IsSpace(s[0]) {
      var q := PadSkipped(s[1..]);
      p := [s[0]] + q;
    } else {
      p := "";
    }
  }

  lemma {:induction false} HexDigitsParsed(u: string, val: string, i: nat)
    requires u != [] && 1 <= i <= 5 && i <= |u| && forall j :: 1 <= j < i ==> IsHexDigit(u[j])
    requires UnicodeEscape(u, val, i).Done? && UnicodeEscape(u, val, i).ok
    ensures |u| >= 5 && forall j :: 1 <= j < 5 ==> IsHexDigit(u[j])
    decreases 5 - i
  {
    if i < 5 {
      HexDigitsParsed(u, val, i + 1);
    }
  }

  /** The first character of a string, as it is spelled. */
  lemma {:induction false} CharParsed(s: string, val: string) returns (ch: Chr, more: string)
    requires s != [] && s[0] != '"' && StringLoop(s, val).Done? && StringLoop(s, val).ok
    ensures Legal(ch) && s == SpellChar(ch, more) && |more| < |s|
    ensures StringLoop(s, val) == StringLoop(more, val + MeaningOfChar(ch))
  {
    if s[0] != '\\' {
      ch, more := Raw(s[0]), s[1..];
    } else if s[1] != 'u' {
      ch, more := Slashed(s[1]), s[2..];
    } else {
      HexDigitsParsed(s[1..], val, 1);
      ch, more := HexParsed(s);
    }
    CharReads(ch, more, val);
  }

  lemma HexParsed(s: string) returns (ch: Chr, more: string)
    requires |s| >= 6 && s[0] == '\\' && s[1] == 'u' && forall j :: 1 <= j < 5 ==> IsHexDigit(s[1..][j])
    ensures ch.Unicode? && Legal(ch) && s == SpellChar(ch, more) && |more| < |s|
  {
    var hex := s[2..6];
    forall j | 0 <= j < 4
      ensures hex[j] in "0123456789abcdefABCDEF"
    {
      assert hex[j] == s[1..][j + 1];
      HexDigitsAre(hex[j]);
    }
    ch, more := Unicode(hex), s[6..];
  }

  lemma {:induction false} CharsParsed(s: string, val: string) returns (chars: seq<Chr>)
    requires StringLoop(s, val).Done? && StringLoop(s, val).ok
    ensures forall i :: 0 <= i < |chars| ==> Legal(chars[i])
    ensures s == SpellChars(chars, "\"" + StringLoop(s, val).rest)
    ensures StringLoop(s, val) == FinishString(val + MeaningOfText(chars), StringLoop(s, val).rest)
    decreases |s|
  {
    if s[0] == '"' {
      chars := [];
      assert val + "" == val;
    } else {
      var ch, more := CharParsed(s, val);
      var chs := CharsParsed(more, val + MeaningOfChar(ch));
      chars := [ch] + chs;
      assert chars[1..] == chs;
      Associates(val, MeaningOfChar(ch), MeaningOfText(chs));
    }
  }

  lemma TextParsed(s: string) returns (t: Tree)
    requires s != [] && s[0] == '"' && StringLoop(s[1..], "").Done? && StringLoop(s[1..], "").ok
    ensures var r := StringLoop(s[1..], "");
            t.Text? && LegalTree(t) && s == Spell(t, r.rest) && Meaning(t) == r.value
  {
    var r := StringLoop(s[1..], "");
    var chars := CharsParsed(s[1..], "");
    var text := MeaningOfText(chars);
    assert "" + text == text;
    FinishedIsLegal(chars, r);
    t := Text(chars);
  }

  lemma FinishedIsLegal(chars: seq<Chr>, r: Outcome)
    requires (forall i :: 0 <= i < |chars| ==> Legal(chars[i])) && r.Done?
    requires r == FinishString(MeaningOfText(chars), r.rest)
    ensures LegalTree(Text(chars)) && Meaning(Text(chars)) == r.value
  {
    Finishes(MeaningOfText(chars), r.rest);
  }

  lemma {:induction false} NumberParsed(s: string, val: string) returns (text: string)
    requires NumberLoop(s, val).Done? && NumberLoop(s, val).ok
    ensures var r := NumberLoop(s, val);
            && s == text + r.rest && (forall i :: 0 <= i < |text| ==> IsDigit(text[i]) || text[i] == '-')
            && r.rest != [] && EndsNumber(r.rest[0])
            && ToLong(val + text).Some? && r.value == Integral(ToLong(val + text).value)
    decreases |s|
  {
    if s[0] == '-' || IsDigit(s[0]) {
      var more := NumberParsed(s[1..], val + [s[0]]);
      text := [s[0]] + more;
      Associates(val, [s[0]], more);
    } else {
      text := "";
      assert val + "" == val;
    }
  }

  lemma DigitsAreLegal(text: string)
    requires (forall i :: 0 <= i < |text| ==> IsDigit(text[i]) || text[i] == '-') && ToLong(text).Some?
    ensures LegalNumber(text)
  {
    forall i | 0 <= i < |text|
      ensures text[i] in "-0123456789"
    {
      SignsAndDigits(text[i]);
    }
  }

  lemma DigitsParsed(s: string) returns (t: Tree)
    requires NumberLoop(s, "").Done? && NumberLoop(s, "").ok
    ensures var r := NumberLoop(s, "");
            LegalTree(t) && s == Spell(t, r.rest) && Meaning(t) == r.value && MayFollow(r.value, r.rest)
  {
    var text := NumberParsed(s, "");
    assert "" + text == text;
    DigitsAreLegal(text);
    t := Number(text);
  }

  lemma WordParsed(s: string) returns (t: Tree)
    requires s != [] && (s[0] == 't' || s[0] == 'f' || s[0] == 'n')
    requires var r := if s[0] == 'n' then ParseNull(s) else ParseBool(s); r.Done? && r.ok
    ensures var r := if s[0] == 'n' then ParseNull(s) else ParseBool(s);
            t.Word? && LegalTree(t) && s == Spell(t, r.rest) && Meaning(t) == r.value
  {
    var r := if s[0] == 'n' then ParseNull(s) else ParseBool(s);
    t := Word(r.value);
  }

  /** Once the status is an error it stays one. */
  lemma {:induction false} ErrorStays(s: string, items: seq<JSON>, ms: seq<Member>)
    ensures ArrayLoop(s, items, false).Done? ==> !ArrayLoop(s, items, false).ok
    ensures ObjectLoop(s, ms, false).Done? ==> !ObjectLoop(s, ms, false).ok
    decreases |s|
  {
    var r := Next(s);
    if r.Done? {
      var t := SkipSpace(r.rest);
      if t != [] && t[0] == ',' {
        ErrorStays(t[1..], items + [r.value], []);
      } else if t != [] && t[0] == ':' {
        var v := Next(SkipSpace(t[1..]));
        if v.Done? {
          var u := SkipSpace(v.rest);
          if u != [] && u[0] == ',' {
            ErrorStays(u[1..], [], Put(ms, KeyText(r.value), v.value));
          }
        }
      }
    }
  }

  lemma {:induction false} ItemParsed(s: string) returns (item: Item)
    requires Next(s).Done? && Next(s).ok
    ensures LegalTree(item.tree) && Meaning(item.tree) == Next(s).value
    ensures s == item.before + Spell(item.tree, item.after + SkipSpace(Next(s).rest))
    decreases |s|, 1
  {
    var p, t := Parsed(s);
    var q := PadSkipped(Next(s).rest);
    item := Item(p, t, q);
  }

  lemma {:induction false} SuccessfulItem(s: string, done: seq<JSON>)
    requires ArrayLoop(s, done, true).Done? && ArrayLoop(s, done, true).ok
    ensures Next(s).Done? && Next(s).ok
    ensures var u, done' := SkipSpace(Next(s).rest), done + [Next(s).value];
            u != [] && (u[0] == ',' || u[0] == ']')
            && ArrayLoop(s, done, true)
               == if u[0] == ',' then ArrayLoop(u[1..], done', true) else Done(Array(done'), u[1..], true)
  {
    var r := Next(s);
    if !r.ok {
      ErrorStays(SkipSpace(r.rest)[1..], done + [r.value], []);
    }
  }

  lemma {:induction false} ItemTaken(s: string, done: seq<JSON>) returns (item: Item, u: string)
    requires ArrayLoop(s, done, true).Done? && ArrayLoop(s, done, true).ok
    ensures LegalTree(item.tree) && u != [] && |u| <= |s| && (u[0] == ',' || u[0] == ']')
    ensures s == item.before + Spell(item.tree, item.after + u)
    ensures var done' := done + [Meaning(item.tree)];
            ArrayLoop(s, done, true)
            == if u[0] == ',' then ArrayLoop(u[1..], done', true) else Done(Array(done'), u[1..], true)
    decreases |s|, 2
  {
    SuccessfulItem(s, done);
    item := ItemParsed(s);
    u := SkipSpace(Next(s).rest);
  }

  lemma AddItem(item: Item, more: seq<Item>, u: string, rest: string, done: seq<JSON>)
    requires u == if more == [] then "]" + rest else "," + SpellItems(more, rest)
    ensures SpellItems([item] + more, rest) == item.before + Spell(item.tree, item.after + u)
    ensures done + MeaningOfItems([item] + more) == done + [Meaning(item.tree)] + MeaningOfItems(more)
  {
    assert ([item] + more)[1..] == more;
    MoveMeaning(done, [item] + more);
  }

  lemma {:induction false} ItemsParsed(s: string, done: seq<JSON>, r: Outcome) returns (items: seq<Item>)
    requires ArrayLoop(s, done, true) == r && r.Done? && r.ok
    ensures items != [] && forall i :: 0 <= i < |items| ==> LegalTree(items[i].tree)
    ensures s == SpellItems(items, r.rest) && r.value == Array(done + MeaningOfItems(items))
    decreases |s|, 3
  {
    var item, u := ItemTaken(s, done);
    var more := [];
    if u[0] == ',' {
      more := ItemsParsed(u[1..], done + [Meaning(item.tree)], r);
      assert u == "," + u[1..];
    } else {
      assert u == "]" + u[1..];
    }
    AddItem(item, more, u, r.rest, done);
    items := [item] + more;
  }

  /** A member up to what follows it. */
  lemma {:induction false} FieldParsed(s: string) returns (f: Field, u: string)
    requires Next(s).Done? && Next(s).ok
    requires var t := SkipSpace(Next(s).rest);
             t != [] && t[0] == ':' && Next(SkipSpace(t[1..])).Done? && Next(SkipSpace(t[1..])).ok
    ensures var t := SkipSpace(Next(s).rest);
            var v := Next(SkipSpace(t[1..]));
            && LegalField(f) && Meaning(f.key) == Next(s).value && Meaning(f.tree) == v.value && u == SkipSpace(v.rest)
            && s == f.before + Spell(f.key, f.beforeColon + (":" + (f.afterColon + Spell(f.tree, f.after + u))))
    decreases |s|, 1
  {
    var k := Next(s);
    var t := SkipSpace(k.rest);
    var value := SkipSpace(t[1..]);
    var v := Next(value);
    u := SkipSpace(v.rest);
    var before, key := Parsed(s);
    var beforeColon := PadSkipped(k.rest);
    var afterColon := PadSkipped(t[1..]);
    var p, tree := Parsed(value);
    var after := PadSkipped(v.rest);
    assert t == ":" + t[1..];
    f := Field(before, key, beforeColon, afterColon + p, tree, after);
    Associates(afterColon, p, Spell(tree, after + u));
    NumberKeyEnds(key, beforeColon, k.rest, t);
  }

  lemma NumberKeyEnds(key: Tree, beforeColon: Pad, rest: string, colon: string)
    requires LegalTree(key) && MayFollow(Meaning(key), rest)
    requires rest == beforeColon + colon && colon != [] && colon[0] == ':'
    ensures key.Number? ==> beforeColon != ""
  {
    if key.Number? {
      assert Meaning(key).Integral?;
    }
  }

  /** A turn of the loop of parse_object in a run that ends with success. */
  lemma {:induction false} SuccessfulTurn(s: string, done: seq<Member>)
    requires ObjectLoop(s, done, true).Done? && ObjectLoop(s, done, true).ok
    ensures Next(s).Done? && Next(s).ok
    ensures var t := SkipSpace(Next(s).rest);
            t != [] && t[0] == ':'
            && var v := Next(SkipSpace(t[1..]));
               v.Done? && v.ok
               && var u, done' := SkipSpace(v.rest), Put(done, KeyText(Next(s).value), v.value);
                  u != [] && (u[0] == ',' || u[0] == '}')
                  && ObjectLoop(s, done, true)
                     == if u[0] == ',' then ObjectLoop(u[1..], done', true) else Done(Object(done'), u[1..], true)
  {
    var k := Next(s);
    var t := SkipSpace(k.rest);
    var v := Next(SkipSpace(t[1..]));
    if !k.ok || !v.ok {
      ErrorStays(SkipSpace(v.rest)[1..], [], Put(done, KeyText(k.value), v.value));
    }
  }

  lemma {:induction false} FieldTaken(s: string, done: seq<Member>) returns (f: Field, u: string)
    requires ObjectLoop(s, done, true).Done? && ObjectLoop(s, done, true).ok
    ensures LegalField(f) && u != [] && |u| <= |s| && (u[0] == ',' || u[0] == '}')
    ensures s == f.before + Spell(f.key, f.beforeColon + (":" + (f.afterColon + Spell(f.tree, f.after + u))))
    ensures var done' := Put(done, KeyOf(f), Meaning(f.tree));
            ObjectLoop(s, done, true)
            == if u[0] == ',' then ObjectLoop(u[1..], done', true) else Done(Object(done'), u[1..], true)
    decreases |s|, 2
  {
    SuccessfulTurn(s, done);
    f, u := FieldParsed(s);
  }

  lemma AddField(f: Field, more: seq<Field>, u: string, rest: string, done: seq<Member>)
    requires u == if more == [] then "}" + rest else "," + SpellFields(more, rest)
    ensures SpellFields([f] + more, rest)
         == f.before + Spell(f.key, f.beforeColon + (":" + (f.afterColon + Spell(f.tree, f.after + u))))
    ensures MeaningOfFields([f] + more, done) == MeaningOfFields(more, Put(done, KeyOf(f), Meaning(f.tree)))
  {
    assert ([f] + more)[1..] == more;
  }

  lemma {:induction false} FieldsParsed(s: string, done: seq<Member>, r: Outcome) returns (fields: seq<Field>)
    requires ObjectLoop(s, done, true) == r && r.Done? && r.ok
    ensures fields != [] && forall i :: 0 <= i < |fields| ==> LegalField(fields[i])
    ensures s == SpellFields(fields, r.rest) && r.value == Object(MeaningOfFields(fields, done))
    decreases |s|, 3
  {
    var f, u := FieldTaken(s, done);
    var more := [];
    if u[0] == ',' {
      more := FieldsParsed(u[1..], Put(done, KeyOf(f), Meaning(f.tree)), r);
      assert u == "," + u[1..];
    } else {
      assert u == "}" + u[1..];
    }
    AddField(f, more, u, r.rest, done);
    fields := [f] + more;
  }

  lemma PadItems(p: Pad, items: seq<Item>, rest: string) returns (items': seq<Item>)
    requires items != [] && forall i :: 0 <= i < |items| ==> LegalTree(items[i].tree)
    ensures items' != [] && (forall i :: 0 <= i < |items'| ==> LegalTree(items'[i].tree))
    ensures SpellItems(items', rest) == p + SpellItems(items, rest) && MeaningOfItems(items') == MeaningOfItems(items)
  {
    items' := [items[0].(before := p + items[0].before)] + items[1..];
    assert items'[1..] == items[1..];
    var after := if |items| == 1 then "]" + rest else "," + SpellItems(items[1..], rest);
    Associates(p, items[0].before, Spell(items[0].tree, items[0].after + after));
  }

  lemma PadFields(p: Pad, fields: seq<Field>, rest: string) returns (fields': seq<Field>)
    requires fields != [] && forall i :: 0 <= i < |fields| ==> LegalField(fields[i])
    ensures fields' != [] && (forall i :: 0 <= i < |fields'| ==> LegalField(fields'[i]))
    ensures SpellFields(fields', rest) == p + SpellFields(fields, rest)
    ensures MeaningOfFields(fields', []) == MeaningOfFields(fields, [])
  {
    var f := fields[0];
    fields' := [f.(before := p + f.before)] + fields[1..];
    assert fields'[1..] == fields[1..];
    var after := if |fields| == 1 then "}" + rest else "," + SpellFields(fields[1..], rest);
    Associates(p, f.before, Spell(f.key, f.beforeColon + (":" + (f.afterColon + Spell(f.tree, f.after + after)))));
  }

  lemma EmptyList(p: Pad, rest: string) returns (t: Tree)
    ensures t.List? && LegalTree(t) && Spell(t, rest) == "[" + (p + ("]" + rest)) && Meaning(t) == Array([])
  {
    t := List(p, []);
  }

  lemma FullList(p: Pad, items: seq<Item>, rest: string) returns (t: Tree)
    requires items != [] && forall i :: 0 <= i < |items| ==> LegalTree(items[i].tree)
    ensures t.List? && LegalTree(t) && Spell(t, rest) == "[" + (p + SpellItems(items, rest))
    ensures Meaning(t) == Array(MeaningOfItems(items))
  {
    var items' := PadItems(p, items, rest);
    t := List("", items');
  }

  lemma {:induction false} ListParsed(s: string) returns (t: Tree)
    requires ParseArray(s).Done? && ParseArray(s).ok
    ensures var r := ParseArray(s);
            t.List? && LegalTree(t) && "[" + s == Spell(t, r.rest) && Meaning(t) == r.value
    decreases |s|, 4
  {
    var u := SkipSpace(s);
    var p := PadSkipped(s);
    if u[0] == ']' {
      t := EmptyList(p, u[1..]);
      assert u == "]" + u[1..];
    } else {
      var items := ItemsParsed(u, [], ParseArray(s));
      t := FullList(p, items, ParseArray(s).rest);
      assert [] + MeaningOfItems(items) == MeaningOfItems(items);
    }
  }

  lemma EmptyRecord(p: Pad, rest: string) returns (t: Tree)
    ensures t.Record? && LegalTree(t) && Spell(t, rest) == "{" + (p + ("}" + rest)) && Meaning(t) == Object([])
  {
    t := Record(p, []);
  }

  lemma FullRecord(p: Pad, fields: seq<Field>, rest: string) returns (t: Tree)
    requires fields != [] && forall i :: 0 <= i < |fields| ==> LegalField(fields[i])
    ensures t.Record? && LegalTree(t) && Spell(t, rest) == "{" + (p + SpellFields(fields, rest))
    ensures Meaning(t) == Object(MeaningOfFields(fields, []))
  {
    var fields' := PadFields(p, fields, rest);
    t := Record("", fields');
  }

  lemma {:induction false} RecordParsed(s: string) returns (t: Tree)
    requires ParseObject(s).Done? && ParseObject(s).ok
    ensures var r := ParseObject(s);
            t.Record? && LegalTree(t) && "{" + s == Spell(t, r.rest) && Meaning(t) == r.value
    decreases |s|, 4
  {
    var u := SkipSpace(s);
    var p := PadSkipped(s);
    if u[0] == '}' {
      t := EmptyRecord(p, u[1..]);
      assert u == "}" + u[1..];
    } else {
      var fields := FieldsParsed(u, [], ParseObject(s));
      t := FullRecord(p, fields, ParseObject(s).rest);
    }
  }

  /** Whatever is read with success is a legal spelling of what comes out, behind white space. */
  lemma {:induction false} Parsed(s: string) returns (p: Pad, t: Tree)
    requires Next(s).Done? && Next(s).ok
    ensures var r := Next(s);
            LegalTree(t) && s == p + Spell(t, r.rest) && Meaning(t) == r.value && MayFollow(r.value, r.rest)
    decreases |s|, 0
  {
    var u := SkipSpace(s);
    p := PadSkipped(s);
    if u[0] == '[' {
      t := ListParsed(u[1..]);
      assert u == "[" + u[1..];
    } else if u[0] == '{' {
      t := RecordParsed(u[1..]);
      assert u == "{" + u[1..];
    } else if u[0] == '"' {
      t := TextParsed(u);
    } else if u[0] == 't' || u[0] == 'f' || u[0] == 'n' {
      t := WordParsed(u);
    } else {
      t := DigitsParsed(u);
    }
  }

  /** The text is white space, a spelling of the value, and the rest. */
  ghost predicate Spells(text: string, p: Pad, t: Tree, v: JSON, rest: string) {
    LegalTree(t) && text == p + Spell(t, rest) && Meaning(t) == v && MayFollow(v, rest)
  }

  /** Load succeeds with a value and a rest exactly if the text is a spelling of that value, followed by that rest. */
  lemma LoadIff(text: string, v: JSON, rest: string)
    requires text != []
    ensures Load(text) == Done(v, rest, true) <==> exists p: Pad, t :: Spells(text, p, t, v, rest)
  {
    if Load(text) == Done(v, rest, true) {
      var p, t := Parsed(text);
      assert Spells(text, p, t, v, rest);
    }
    if p: Pad, t :| Spells(text, p, t, v, rest) {
      LoadReads(p, t, rest);
    }
  }
}
