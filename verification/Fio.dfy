/**
 The object that remembers the order of insertion (FIOObject, src/enclave/utils/Json.h:467-511
 and 879-908). Its one std::map holds two kinds of entries: the key of a member leads to the
 name of its value, and that name, a numeric tag, a dash and the key, leads to the value. As
 each new tag is lexicographically greater than the ones before it, walking through the map
 meets the values in the order in which their keys came.
 */
module Fio {
  import opened Basics
  import opened Order
  import opened Json
  import opened JsonText

  // ----- Names and tags -----

  predicate IsNumber(s: string) {
    s != [] && forall i :: 0 <= i < |s| ==> IsDigit(s[i])
  }

  /** What stands before the first dash, if there is one. */
  function BeforeDash(s: string): Option<string> {
    if s == [] then None
    else if s[0] == '-' then Some("")
    else match BeforeDash(s[1..])
         case None => None
         case Some(tag) => Some([s[0]] + tag)
  }

  /** A number, a dash and anything: the form of the names of values. */
  predicate Numbered(s: string) {
    BeforeDash(s).Some? && IsNumber(BeforeDash(s).value)
  }

  function Name(tag: string, key: string): string { tag + "-" + key }

  lemma {:induction false} NameSplits(tag: string, key: string)
    requires forall i :: 0 <= i < |tag| ==> tag[i] != '-'
    ensures BeforeDash(Name(tag, key)) == Some(tag)
  {
    if tag != [] {
      NameSplits(tag[1..], key);
      assert Name(tag, key)[1..] == Name(tag[1..], key);
      assert tag == [tag[0]] + tag[1..];
    } else {
      assert Name(tag, key) == "-" + key;
    }
  }

  lemma NameCons(c: char, tag: string, key: string)
    ensures [c] + Name(tag, key) == Name([c] + tag, key)
  {
  }

  lemma {:induction false} BeforeDashIsPrefix(s: string)
    ensures BeforeDash(s).Some? ==>
              var tag := BeforeDash(s).value; |tag| < |s| && s == Name(tag, s[|tag| + 1..])
  {
    if s != [] && s[0] != '-' {
      BeforeDashIsPrefix(s[1..]);
      if BeforeDash(s).Some? {
        var t := BeforeDash(s[1..]).value;
        assert s == [s[0]] + s[1..];
        assert s[1..][|t| + 1..] == s[|t| + 2..];
        NameCons(s[0], t, s[|t| + 2..]);
      }
    } else if s != [] {
      assert s == Name("", s[1..]);
    }
  }

  /** The tag after a tag: 0, 1, ..., 9, 90, 91, ..., 99, 990, ... */
  function Bump(tag: string): string
    requires tag != []
  {
    var last := |tag| - 1;
    if tag[last] >= '9' then tag + "0" else tag[..last] + [tag[last] + 1 as char]
  }

  function Tag(i: nat): (tag: string)
    ensures tag != []
  {
    if i == 0 then "0" else Bump(Tag(i - 1))
  }

  lemma {:induction false} TagIsNumber(i: nat)
    ensures IsNumber(Tag(i))
  {
    if i > 0 {
      TagIsNumber(i - 1);
    }
  }

  /** A tag sorts before the next one, whatever stands behind their dashes. */
  lemma BumpIsGreater(tag: string, a: string, b: string)
    requires IsNumber(tag)
    ensures Less(Name(tag, a), Name(Bump(tag), b))
  {
    var last := |tag| - 1;
    if tag[last] >= '9' {
      LessAfterFront(tag, "-" + a, "0-" + b);
      assert Name(tag, a) == tag + ("-" + a) && Name(Bump(tag), b) == tag + ("0-" + b);
    } else {
      var c := tag[last];
      LessAfterFront(tag[..last], [c] + "-" + a, [c + 1 as char] + "-" + b);
      assert Name(tag, a) == tag[..last] + ([c] + "-" + a);
      assert Name(Bump(tag), b) == tag[..last] + ([c + 1 as char] + "-" + b);
    }
  }

  lemma {:induction false} TagsAscend(i: nat, j: nat, a: string, b: string)
    requires i < j
    ensures Less(NameAt(i, a), NameAt(j, b))
  {
    TagIsNumber(j - 1);
    if i + 1 == j {
      BumpIsGreater(Tag(i), a, b);
    } else {
      TagsAscend(i, j - 1, a, a);
      BumpIsGreater(Tag(j - 1), a, b);
      Transitive(NameAt(i, a), NameAt(j - 1, a), NameAt(j, b));
    }
  }

  lemma TagNameSplits(i: nat, key: string)
    ensures BeforeDash(NameAt(i, key)) == Some(Tag(i)) && Numbered(NameAt(i, key))
  {
    TagIsNumber(i);
    NameSplits(Tag(i), key);
  }

  // ----- The map -----

  function Find(ms: seq<Member>, key: string): Option<JSON> {
    if ms == [] then None
    else if ms[0].key == key then Some(ms[0].value)
    else Find(ms[1..], key)
  }

  /** The tag a new key gets: the one after the last tag of the map. */
  function NewTag(ms: seq<Member>): string {
    if ms == [] then "0"
    else
      var name := ms[|ms| - 1].key;
      if Numbered(name) then Bump(BeforeDash(name).value) else NewTag(ms[..|ms| - 1])
  }

  /** `object[key] = value`. */
  function Assigned(ms: seq<Member>, key: string, value: JSON): seq<Member> {
    match Find(ms, key)
    case Some(name) => Put(ms, KeyText(name), value)
    case None =>
      var name := Name(NewTag(ms), key);
      Put(Put(ms, key, String(name)), name, value)
  }

  /** The part of a name behind its tag and the dash. */
  function Stripped(name: string): string
    requires BeforeDash(name).Some?
  {
    BeforeDashIsPrefix(name);
    name[|BeforeDash(name).value| + 1..]
  }

  predicate Shows(m: Member) { Numbered(m.key) && Stripped(m.key) != [] }

  /** The members that are printed. */
  function Shown(ms: seq<Member>): seq<Member> {
    if ms == [] then []
    else
      var n := |ms| - 1;
      if Shows(ms[n]) then Shown(ms[..n]) + [Member(Stripped(ms[n].key), ms[n].value)] else Shown(ms[..n])
  }

  // ----- The reference: a list in the order of first insertion -----

  function Upsert(order: seq<Member>, key: string, value: JSON): seq<Member> {
    if order == [] then [Member(key, value)]
    else if order[0].key == key then [Member(key, value)] + order[1..]
    else [order[0]] + Upsert(order[1..], key, value)
  }

  /** The members with a key that is not empty. */
  function Named(order: seq<Member>): seq<Member> {
    if order == [] then []
    else
      var n := |order| - 1;
      if order[n].key != "" then Named(order[..n]) + [order[n]] else Named(order[..n])
  }

  // ----- The entries with a tag -----

  function Tagged(ms: seq<Member>): seq<Member> {
    if ms == [] then []
    else if Numbered(ms[0].key) then [ms[0]] + Tagged(ms[1..])
    else Tagged(ms[1..])
  }

  /** The values of the list under their names. */
  function Filed(order: seq<Member>): (r: seq<Member>)
    ensures |r| == |order|
  {
    if order == [] then []
    else
      var n := |order| - 1;
      Filed(order[..n]) + [FiledAs(order[n], n)]
  }

  function FiledAs(m: Member, i: nat): Member {
    Member(NameAt(i, m.key), m.value)
  }

  function NameAt(i: nat, key: string): string {
    Name(Tag(i), key)
  }

  lemma {:induction false} TaggedAppend(ms: seq<Member>, m: Member)
    ensures Tagged(ms + [m]) == Tagged(ms) + (if Numbered(m.key) then [m] else [])
  {
    if ms == [] {
      assert ms + [m] == [m];
    } else {
      assert (ms + [m])[1..] == ms[1..] + [m];
      TaggedAppend(ms[1..], m);
    }
  }

  lemma {:induction false} NewTagIsAfterLast(ms: seq<Member>)
    ensures Tagged(ms) == [] ==> NewTag(ms) == "0"
    ensures Tagged(ms) != [] ==>
              var last := Tagged(ms)[|Tagged(ms)| - 1].key;
              Numbered(last) && NewTag(ms) == Bump(BeforeDash(last).value)
  {
    if ms != [] {
      var n := |ms| - 1;
      assert ms == ms[..n] + [ms[n]];
      TaggedAppend(ms[..n], ms[n]);
      NewTagIsAfterLast(ms[..n]);
    }
  }

  lemma {:induction false} TaggedInMap(ms: seq<Member>)
    ensures forall m :: m in Tagged(ms) ==> m in ms && Numbered(m.key)
  {
    if ms != [] {
      TaggedInMap(ms[1..]);
    }
  }

  lemma {:induction false} PutTagged(ms: seq<Member>, key: string, value: JSON)
    requires SortedKeys(ms)
    ensures Tagged(Put(ms, key, value)) == if Numbered(key) then Put(Tagged(ms), key, value) else Tagged(ms)
  {
    var m := Member(key, value);
    if ms == [] {
      assert [m][1..] == [];
    } else if ms[0].key == key {
      assert ([m] + ms[1..])[1..] == ms[1..];
      if Numbered(key) {
        assert ([ms[0]] + Tagged(ms[1..]))[1..] == Tagged(ms[1..]);
      }
    } else if Less(key, ms[0].key) {
      assert ([m] + ms)[1..] == ms;
      PutBeforeAll(ms, key, value);
    } else {
      PutTagged(ms[1..], key, value);
      var more := Put(ms[1..], key, value);
      assert ([ms[0]] + more)[1..] == more;
      if Numbered(ms[0].key) {
        assert ([ms[0]] + Tagged(ms[1..]))[1..] == Tagged(ms[1..]);
      }
    }
  }

  lemma PutBeforeAll(ms: seq<Member>, key: string, value: JSON)
    requires SortedKeys(ms) && ms != [] && Less(key, ms[0].key)
    ensures Put(Tagged(ms), key, value) == [Member(key, value)] + Tagged(ms)
  {
    TaggedInMap(ms);
    if Tagged(ms) != [] {
      var first := Tagged(ms)[0];
      assert first in Tagged(ms);
      var j :| 0 <= j < |ms| && ms[j] == first;
      if j > 0 {
        Transitive(key, ms[0].key, first.key);
      }
      Irreflexive(key);
    }
  }

  lemma {:induction false} FindPut(ms: seq<Member>, key: string, value: JSON, other: string)
    requires SortedKeys(ms)
    ensures Find(Put(ms, key, value), other) == if key == other then Some(value) else Find(ms, other)
  {
    var m := Member(key, value);
    if ms == [] {
      assert [m][1..] == [];
    } else if ms[0].key == key {
      assert ([m] + ms[1..])[1..] == ms[1..];
    } else if Less(key, ms[0].key) {
      assert ([m] + ms)[1..] == ms;
    } else {
      FindPut(ms[1..], key, value, other);
      var more := Put(ms[1..], key, value);
      assert ([ms[0]] + more)[1..] == more;
    }
  }

  // ----- Filing -----

  lemma {:induction false} FiledAt(order: seq<Member>, j: nat)
    requires j < |order|
    ensures Filed(order)[j] == FiledAs(order[j], j)
  {
    if j < |order| - 1 {
      FiledAt(order[..|order| - 1], j);
    }
  }

  lemma FiledAppend(order: seq<Member>, m: Member)
    ensures Filed(order + [m]) == Filed(order) + [FiledAs(m, |order|)]
  {
    assert (order + [m])[..|order|] == order;
  }

  lemma FiledAscends(order: seq<Member>)
    ensures SortedKeys(Filed(order))
  {
    forall i, j | 0 <= i < j < |order|
      ensures Less(Filed(order)[i].key, Filed(order)[j].key)
    {
      FiledAt(order, i);
      FiledAt(order, j);
      TagsAscend(i, j, order[i].key, order[j].key);
    }
  }

  lemma PutFiledNew(order: seq<Member>, key: string, value: JSON)
    ensures Put(Filed(order), NameAt(|order|, key), value) == Filed(order + [Member(key, value)])
  {
    FiledAppend(order, Member(key, value));
    FiledAscends(order + [Member(key, value)]);
    PutAppends(Filed(order), NameAt(|order|, key), value);
  }

  lemma {:induction false} PutReplaces(ms: seq<Member>, j: nat, value: JSON)
    requires j < |ms| && SortedKeys(ms)
    ensures Put(ms, ms[j].key, value) == ms[j := Member(ms[j].key, value)]
  {
    if j > 0 {
      LessNotSymmetric(ms[0].key, ms[j].key);
      PutReplaces(ms[1..], j - 1, value);
    }
  }

  lemma FiledUpdate(order: seq<Member>, j: nat, value: JSON)
    requires j < |order|
    ensures Filed(order[j := Member(order[j].key, value)]) == Filed(order)[j := Member(NameAt(j, order[j].key), value)]
  {
    var order' := order[j := Member(order[j].key, value)];
    forall k | 0 <= k < |order|
      ensures Filed(order')[k] == Filed(order)[j := Member(NameAt(j, order[j].key), value)][k]
    {
      FiledAt(order, k);
      FiledAt(order', k);
    }
  }

  lemma PutFiledOld(order: seq<Member>, j: nat, value: JSON)
    requires j < |order|
    ensures Put(Filed(order), NameAt(j, order[j].key), value) == Filed(order[j := Member(order[j].key, value)])
  {
    FiledAscends(order);
    FiledAt(order, j);
    PutReplaces(Filed(order), j, value);
    FiledUpdate(order, j, value);
  }

  // ----- The reference list -----

  ghost predicate Distinct(order: seq<Member>) {
    forall i, j :: 0 <= i < j < |order| ==> order[i].key != order[j].key
  }

  predicate Has(order: seq<Member>, key: string) {
    exists j :: 0 <= j < |order| && order[j].key == key
  }

  lemma {:induction false} UpsertNew(order: seq<Member>, key: string, value: JSON)
    requires !Has(order, key)
    ensures Upsert(order, key, value) == order + [Member(key, value)]
  {
    if order != [] {
      assert !Has(order[1..], key);
      UpsertNew(order[1..], key, value);
      assert order == [order[0]] + order[1..];
    }
  }

  lemma {:induction false} UpsertOld(order: seq<Member>, j: nat, value: JSON)
    requires Distinct(order) && j < |order|
    ensures Upsert(order, order[j].key, value) == order[j := Member(order[j].key, value)]
  {
    if j > 0 {
      UpsertOld(order[1..], j - 1, value);
      assert order == [order[0]] + order[1..];
    }
  }

  /** What the map holds under a key: the name of its value. */
  function Entry(order: seq<Member>, key: string): Option<JSON> {
    if order == [] then None
    else
      var n := |order| - 1;
      if order[n].key == key then Some(String(NameAt(n, key))) else Entry(order[..n], key)
  }

  lemma {:induction false} EntryAt(order: seq<Member>, key: string) returns (j: nat)
    ensures Has(order, key) ==> j < |order| && order[j].key == key && Entry(order, key) == Some(String(NameAt(j, key)))
    ensures !Has(order, key) ==> Entry(order, key) == None
  {
    j := 0;
    if order != [] {
      var n := |order| - 1;
      if order[n].key == key {
        j := n;
      } else {
        j := EntryAt(order[..n], key);
        if Has(order, key) {
          var k :| 0 <= k < |order| && order[k].key == key;
          assert order[..n][k].key == key;
        } else {
          assert !Has(order[..n], key);
        }
      }
    }
  }

  lemma {:induction false} EntryUpdate(order: seq<Member>, j: nat, value: JSON, key: string)
    requires j < |order|
    ensures Entry(order[j := Member(order[j].key, value)], key) == Entry(order, key)
  {
    var n := |order| - 1;
    var order' := order[j := Member(order[j].key, value)];
    if j == n {
      assert order'[..n] == order[..n];
    } else if order[n].key != key {
      assert order'[..n] == order[..n][j := Member(order[j].key, value)];
      EntryUpdate(order[..n], j, value, key);
    }
  }

  lemma EntryAppend(order: seq<Member>, m: Member, key: string)
    ensures Entry(order + [m], key) == if m.key == key then Some(String(NameAt(|order|, key))) else Entry(order, key)
  {
    assert (order + [m])[..|order|] == order;
  }

  // ----- The invariant -----

  /** The map holds the values of the list under their names, and the names under the keys. */
  ghost predicate Keeps(ms: seq<Member>, order: seq<Member>) {
    SortedKeys(ms) && Distinct(order) && Tagged(ms) == Filed(order)
    && forall key :: !Numbered(key) ==> Find(ms, key) == Entry(order, key)
  }

  lemma NewTagIsNext(ms: seq<Member>, order: seq<Member>)
    requires Tagged(ms) == Filed(order)
    ensures NewTag(ms) == Tag(|order|)
  {
    NewTagIsAfterLast(ms);
    if order != [] {
      var n := |order| - 1;
      FiledAt(order, n);
      TagNameSplits(n, order[n].key);
    }
  }

  lemma AssignNewKeeps(ms: seq<Member>, order: seq<Member>, key: string, value: JSON)
    requires Keeps(ms, order) && !Numbered(key) && !Has(order, key)
    ensures Keeps(Assigned(ms, key, value), Upsert(order, key, value))
  {
    var j := EntryAt(order, key);
    NewTagIsNext(ms, order);
    var name := NameAt(|order|, key);
    TagNameSplits(|order|, key);
    var order' := order + [Member(key, value)];
    UpsertNew(order, key, value);
    var ms1 := Put(ms, key, String(name));
    var ms2 := Put(ms1, name, value);
    PutKeepsSorted(ms, key, String(name));
    PutKeepsSorted(ms1, name, value);
    PutTagged(ms, key, String(name));
    PutTagged(ms1, name, value);
    PutFiledNew(order, key, value);
    forall k | !Numbered(k)
      ensures Find(ms2, k) == Entry(order', k)
    {
      FindPut(ms, key, String(name), k);
      FindPut(ms1, name, value, k);
      EntryAppend(order, Member(key, value), k);
    }
  }

  lemma TagNamePlain(i: nat, key: string)
    requires Plain(key)
    ensures KeyText(String(NameAt(i, key))) == NameAt(i, key)
  {
    TagIsNumber(i);
    PlainEscapes(NameAt(i, key));
  }

  lemma AssignOldKeeps(ms: seq<Member>, order: seq<Member>, key: string, value: JSON)
    requires Keeps(ms, order) && !Numbered(key) && Has(order, key) && Plain(key)
    ensures Keeps(Assigned(ms, key, value), Upsert(order, key, value))
  {
    var j := EntryAt(order, key);
    TagNamePlain(j, key);
    TagNameSplits(j, key);
    var name := NameAt(j, key);
    UpsertOld(order, j, value);
    var order' := order[j := Member(key, value)];
    PutKeepsSorted(ms, name, value);
    PutTagged(ms, name, value);
    PutFiledOld(order, j, value);
    forall k | !Numbered(k)
      ensures Find(Put(ms, name, value), k) == Entry(order', k)
    {
      FindPut(ms, name, value, k);
      EntryUpdate(order, j, value, k);
    }
  }

  // ----- Printing -----

  lemma {:induction false} ShownIsOfTagged(ms: seq<Member>)
    ensures Shown(ms) == Shown(Tagged(ms))
  {
    if ms != [] {
      var n := |ms| - 1;
      assert ms == ms[..n] + [ms[n]];
      TaggedAppend(ms[..n], ms[n]);
      ShownIsOfTagged(ms[..n]);
      var before := Tagged(ms[..n]);
      if Numbered(ms[n].key) {
        assert Tagged(ms) == before + [ms[n]] && (before + [ms[n]])[..|before|] == before;
      } else {
        assert Tagged(ms) == before;
      }
    }
  }

  lemma {:induction false} ShownFiled(order: seq<Member>)
    ensures Shown(Filed(order)) == Named(order)
  {
    if order != [] {
      var n := |order| - 1;
      ShownFiled(order[..n]);
      var f := Filed(order);
      assert f[..n] == Filed(order[..n]);
      TagNameSplits(n, order[n].key);
      StripName(Tag(n), order[n].key);
    }
  }

  lemma StripName(tag: string, key: string)
    ensures Name(tag, key)[|tag| + 1..] == key
  {
  }

  lemma ShowsOrder(ms: seq<Member>, order: seq<Member>)
    requires Keeps(ms, order)
    ensures Shown(ms) == Named(order)
  {
    ShownIsOfTagged(ms);
    ShownFiled(order);
  }

  // ----- Whole runs -----

  /** The assignments in turn, to the map and to the list. */
  function AssignAll(ops: seq<Member>): seq<Member> {
    if ops == [] then []
    else
      var n := |ops| - 1;
      Assigned(AssignAll(ops[..n]), ops[n].key, ops[n].value)
  }

  function UpsertAll(ops: seq<Member>): seq<Member> {
    if ops == [] then []
    else
      var n := |ops| - 1;
      Upsert(UpsertAll(ops[..n]), ops[n].key, ops[n].value)
  }

  /** No key has the form of a name, and only keys without special characters are assigned again. */
  ghost predicate Orderly(ops: seq<Member>) {
    forall i :: 0 <= i < |ops| ==> OrderlyAt(ops, i)
  }

  ghost predicate OrderlyAt(ops: seq<Member>, i: nat)
    requires i < |ops|
  {
    !Numbered(ops[i].key) && (Has(ops[..i], ops[i].key) ==> Plain(ops[i].key))
  }

  lemma {:induction false} UpsertAllKeys(ops: seq<Member>, key: string)
    ensures Has(UpsertAll(ops), key) ==> Has(ops, key)
  {
    if ops != [] && Has(UpsertAll(ops), key) {
      var n := |ops| - 1;
      UpsertAllKeys(ops[..n], key);
      UpsertHas(UpsertAll(ops[..n]), ops[n].key, ops[n].value, key);
      if ops[n].key != key {
        var k :| 0 <= k < n && ops[..n][k].key == key;
        assert ops[k].key == key;
      }
    }
  }

  lemma {:induction false} UpsertHas(order: seq<Member>, key: string, value: JSON, other: string)
    ensures Has(Upsert(order, key, value), other) ==> other == key || Has(order, other)
  {
    if order != [] && Has(Upsert(order, key, value), other) && other != key && order[0].key != other {
      var order' := Upsert(order, key, value);
      var j :| 0 <= j < |order'| && order'[j].key == other;
      if order[0].key == key {
        assert order[j].key == other;
      } else {
        assert order'[1..][j - 1].key == other;
        UpsertHas(order[1..], key, value, other);
        var k :| 0 <= k < |order[1..]| && order[1..][k].key == other;
        assert order[k + 1].key == other;
      }
    }
  }

  lemma {:induction false} RunKeeps(ops: seq<Member>)
    requires Orderly(ops)
    ensures Keeps(AssignAll(ops), UpsertAll(ops))
  {
    if ops != [] {
      var n := |ops| - 1;
      assert Orderly(ops[..n]) by {
        forall i | 0 <= i < n
          ensures OrderlyAt(ops[..n], i)
        {
          assert ops[..n][..i] == ops[..i] && OrderlyAt(ops, i);
        }
      }
      RunKeeps(ops[..n]);
      assert OrderlyAt(ops, n);
      UpsertAllKeys(ops[..n], ops[n].key);
      if Has(UpsertAll(ops[..n]), ops[n].key) {
        AssignOldKeeps(AssignAll(ops[..n]), UpsertAll(ops[..n]), ops[n].key, ops[n].value);
      } else {
        AssignNewKeeps(AssignAll(ops[..n]), UpsertAll(ops[..n]), ops[n].key, ops[n].value);
      }
    }
  }

  /** After any orderly run of assignments the object prints its named members in the order of first insertion. */
  lemma PrintsInOrder(ops: seq<Member>)
    requires Orderly(ops)
    ensures Shown(AssignAll(ops)) == Named(UpsertAll(ops))
  {
    RunKeeps(ops);
    ShowsOrder(AssignAll(ops), UpsertAll(ops));
  }

  /** With distinct keys, none of them empty, that is the run itself. */
  lemma {:induction false} DistinctRun(ops: seq<Member>)
    requires Distinct(ops) && forall i :: 0 <= i < |ops| ==> ops[i].key != "" && !Numbered(ops[i].key)
    ensures Shown(AssignAll(ops)) == ops
  {
    forall i | 0 <= i < |ops|
      ensures OrderlyAt(ops, i)
    {
      if k :| 0 <= k < i && ops[..i][k].key == ops[i].key {
        assert false;
      }
    }
    PrintsInOrder(ops);
    DistinctUpserts(ops);
    AllNamed(ops);
  }

  lemma {:induction false} DistinctUpserts(ops: seq<Member>)
    requires Distinct(ops)
    ensures UpsertAll(ops) == ops
  {
    if ops != [] {
      var n := |ops| - 1;
      DistinctUpserts(ops[..n]);
      assert !Has(ops[..n], ops[n].key);
      UpsertNew(ops[..n], ops[n].key, ops[n].value);
      assert ops == ops[..n] + [ops[n]];
    }
  }

  lemma {:induction false} AllNamed(order: seq<Member>)
    requires forall i :: 0 <= i < |order| ==> order[i].key != ""
    ensures Named(order) == order
  {
    if order != [] {
      AllNamed(order[..|order| - 1]);
    }
  }

  // ----- What the condition excludes -----

  /** How an entry is shown, if it is. */
  function ShownOne(m: Member): seq<Member> {
    if Shows(m) then [Member(Stripped(m.key), m.value)] else []
  }

  lemma {:induction false} ShownCons(m: Member, ms: seq<Member>)
    ensures Shown([m] + ms) == ShownOne(m) + Shown(ms)
  {
    if ms == [] {
      assert [m] + ms == [m] && [m][..0] == [];
    } else {
      var n := |ms| - 1;
      assert ([m] + ms)[..n + 1] == [m] + ms[..n];
      ShownCons(m, ms[..n]);
    }
  }

  /** An entry under a new name is one more that is shown, if it has the form of a name. */
  lemma {:induction false} PutShows(ms: seq<Member>, key: string, value: JSON)
    requires SortedKeys(ms)
    ensures |Shown(Put(ms, key, value))|
         == |Shown(ms)| + One(Find(ms, key).None? && Shows(Member(key, value)))
  {
    var m := Member(key, value);
    if ms == [] {
      ShownCons(m, []);
      assert [m] + [] == [m];
    } else {
      assert ms == [ms[0]] + ms[1..];
      ShownCons(ms[0], ms[1..]);
      if ms[0].key == key {
        ShownCons(m, ms[1..]);
      } else if Less(key, ms[0].key) {
        ShownCons(m, ms);
        NotBefore(ms, key);
      } else {
        PutShows(ms[1..], key, value);
        ShownCons(ms[0], Put(ms[1..], key, value));
      }
    }
  }

  lemma {:induction false} NotBefore(ms: seq<Member>, key: string)
    requires SortedKeys(ms) && (ms != [] ==> Less(key, ms[0].key))
    ensures Find(ms, key) == None
  {
    if ms != [] {
      LessNotSymmetric(key, ms[0].key);
      if |ms| > 1 {
        Transitive(key, ms[0].key, ms[1].key);
      }
      NotBefore(ms[1..], key);
    }
  }

  lemma {:induction false} UpsertSize(order: seq<Member>, key: string, value: JSON)
    ensures |Named(Upsert(order, key, value))| <= |Named(order)| + 1
  {
    if order == [] {
      NamedCons(Member(key, value), []);
      assert [Member(key, value)] + [] == [Member(key, value)];
    } else {
      assert order == [order[0]] + order[1..];
      NamedCons(order[0], order[1..]);
      if order[0].key == key {
        NamedCons(Member(key, value), order[1..]);
      } else {
        UpsertSize(order[1..], key, value);
        NamedCons(order[0], Upsert(order[1..], key, value));
      }
    }
  }

  lemma {:induction false} NamedCons(m: Member, order: seq<Member>)
    ensures |Named([m] + order)| == One(m.key != "") + |Named(order)|
  {
    if order == [] {
      assert [m] + order == [m] && [m][..0] == [];
    } else {
      var n := |order| - 1;
      assert ([m] + order)[..n + 1] == [m] + order[..n];
      NamedCons(m, order[..n]);
    }
  }

  lemma {:induction false} ReplacedSize(order: seq<Member>, j: nat, value: JSON)
    requires j < |order|
    ensures |Named(order[j := Member(order[j].key, value)])| == |Named(order)|
  {
    var n := |order| - 1;
    var order' := order[j := Member(order[j].key, value)];
    if j == n {
      assert order'[..n] == order[..n];
    } else {
      assert order'[..n] == order[..n][j := Member(order[j].key, value)];
      ReplacedSize(order[..n], j, value);
    }
  }

  /** A name that is not one of the list is new to the map. */
  lemma {:induction false} FindTagged(ms: seq<Member>, name: string)
    requires Numbered(name)
    ensures Find(ms, name) == Find(Tagged(ms), name)
  {
    if ms != [] {
      FindTagged(ms[1..], name);
      if Numbered(ms[0].key) {
        assert ([ms[0]] + Tagged(ms[1..]))[1..] == Tagged(ms[1..]);
      }
    }
  }

  lemma {:induction false} FindNowhere(ms: seq<Member>, name: string)
    requires forall i :: 0 <= i < |ms| ==> ms[i].key != name
    ensures Find(ms, name) == None
  {
    if ms != [] {
      FindNowhere(ms[1..], name);
    }
  }

  lemma NameIsNew(ms: seq<Member>, order: seq<Member>, j: nat, key: string)
    requires Tagged(ms) == Filed(order) && (j < |order| ==> order[j].key != key)
    ensures Find(ms, NameAt(j, key)) == None
  {
    var name := NameAt(j, key);
    TagNameSplits(j, key);
    forall i | 0 <= i < |Filed(order)|
      ensures Filed(order)[i].key != name
    {
      FiledAt(order, i);
      OtherName(i, order[i].key, j, key);
    }
    FindNowhere(Filed(order), name);
    FindTagged(ms, name);
  }

  lemma OtherName(i: nat, a: string, j: nat, b: string)
    requires i != j || a != b
    ensures NameAt(i, a) != NameAt(j, b)
  {
    if i < j {
      TagsAscend(i, j, a, b);
      Irreflexive(NameAt(i, a));
    } else if j < i {
      TagsAscend(j, i, b, a);
      Irreflexive(NameAt(i, a));
    } else {
      StripName(Tag(i), a);
      StripName(Tag(i), b);
    }
  }

  lemma NameShows(j: nat, key: string, value: JSON)
    requires key != ""
    ensures Shows(Member(NameAt(j, key), value))
  {
    TagNameSplits(j, key);
    StripName(Tag(j), key);
  }

  lemma {:induction false} SpecialGrows(s: string)
    requires !Plain(s)
    ensures |Escape(s)| > |s|
  {
    if EscapeChar(s[0]) != [s[0]] {
      EscapeLength(s[1..]);
    } else {
      assert s == [s[0]] + s[1..];
      assert !Plain(s[1..]);
      SpecialGrows(s[1..]);
    }
  }

  lemma EscapedName(j: nat, key: string)
    ensures KeyText(String(NameAt(j, key))) == NameAt(j, Escape(key))
  {
    TagFrontPlain(j);
    var front := Tag(j) + "-";
    assert NameAt(j, key) == front + key && NameAt(j, Escape(key)) == front + Escape(key);
    EscapePlainPrefix(front, key);
  }

  lemma TagFrontPlain(j: nat)
    ensures Plain(Tag(j) + "-")
  {
    TagIsNumber(j);
  }

  /** Assigning again to a key with special characters leaves the old value in place and shows a second member. */
  lemma ReassignedSpecialShows(ms: seq<Member>, order: seq<Member>, key: string, value: JSON)
    requires Keeps(ms, order) && !Numbered(key) && Has(order, key) && !Plain(key)
    ensures |Shown(Assigned(ms, key, value))| == |Shown(ms)| + 1
  {
    var j := EntryAt(order, key);
    EscapedName(j, key);
    SpecialGrows(key);
    NameIsNew(ms, order, j, Escape(key));
    PutShows(ms, NameAt(j, Escape(key)), value);
    NameShows(j, Escape(key), value);
  }

  /** A key is assigned again as it should be, if and only if it has no special characters. */
  lemma ReassignShowsIff(ms: seq<Member>, order: seq<Member>, key: string, value: JSON)
    requires Keeps(ms, order) && !Numbered(key) && Has(order, key)
    ensures Shown(Assigned(ms, key, value)) == Named(Upsert(order, key, value)) <==> Plain(key)
  {
    ShowsOrder(ms, order);
    if Plain(key) {
      AssignOldKeeps(ms, order, key, value);
      ShowsOrder(Assigned(ms, key, value), Upsert(order, key, value));
    } else {
      ReassignedSpecialShows(ms, order, key, value);
      var j := EntryAt(order, key);
      UpsertOld(order, j, value);
      ReplacedSize(order, j, value);
    }
  }

  /**
   A new key of the form of a name, with something behind its dash, shows two members, one of them
   the name of its value.
   */
  lemma NumberedKeyShowsTwo(ms: seq<Member>, order: seq<Member>, key: string, value: JSON)
    requires Keeps(ms, order) && Numbered(key) && Stripped(key) != [] && Find(ms, key) == None
    ensures |Shown(Assigned(ms, key, value))| == |Shown(ms)| + 2
    ensures Shown(Assigned(ms, key, value)) != Named(Upsert(order, key, value))
  {
    NewTagIsNext(ms, order);
    var name := NameAt(|order|, key);
    var ms1 := Put(ms, key, String(name));
    PutShows(ms, key, String(name));
    PutKeepsSorted(ms, key, String(name));
    NameIsNew(ms, order, |order|, key);
    assert |name| > |key|;
    FindPut(ms, key, String(name), name);
    BeforeDashIsPrefix(key);
    NameShows(|order|, key, value);
    PutShows(ms1, name, value);
    ShowsOrder(ms, order);
    UpsertSize(order, key, value);
  }

  lemma {:induction false} HiddenStaysHidden(ms: seq<Member>, key: string, value: JSON)
    requires SortedKeys(ms) && Find(ms, key) == None && !Shows(Member(key, value))
    ensures Shown(Put(ms, key, value)) == Shown(ms)
  {
    var m := Member(key, value);
    if ms == [] {
      ShownCons(m, []);
      assert [m] + [] == [m];
    } else {
      assert ms == [ms[0]] + ms[1..];
      ShownCons(ms[0], ms[1..]);
      if Less(key, ms[0].key) {
        ShownCons(m, ms);
      } else {
        HiddenStaysHidden(ms[1..], key, value);
        ShownCons(ms[0], Put(ms[1..], key, value));
      }
    }
  }

  lemma {:induction false} NoneShown(ms: seq<Member>)
    requires forall i :: 0 <= i < |ms| ==> !Shows(ms[i])
    ensures Shown(ms) == []
  {
    if ms != [] {
      NoneShown(ms[..|ms| - 1]);
    }
  }

  /** All entries that are shown stand before a name. */
  ghost predicate AllBefore(ms: seq<Member>, name: string) {
    forall i :: 0 <= i < |ms| && Shows(ms[i]) ==> Less(ms[i].key, name)
  }

  /** An entry under a name behind all that are shown is shown last. */
  lemma {:induction false} LastIsShownLast(ms: seq<Member>, name: string, value: JSON)
    requires SortedKeys(ms) && Find(ms, name) == None && AllBefore(ms, name)
    ensures Shown(Put(ms, name, value)) == Shown(ms) + ShownOne(Member(name, value))
  {
    var m := Member(name, value);
    if ms == [] {
      ShownCons(m, []);
      assert [m] + [] == [m];
    } else {
      assert ms == [ms[0]] + ms[1..];
      ShownCons(ms[0], ms[1..]);
      if Less(name, ms[0].key) {
        ShownCons(m, ms);
        NothingAfter(ms, name);
        NoneShown(ms);
      } else {
        LastIsShownLast(ms[1..], name, value);
        ShownCons(ms[0], Put(ms[1..], name, value));
      }
    }
  }

  lemma NothingAfter(ms: seq<Member>, name: string)
    requires SortedKeys(ms) && AllBefore(ms, name) && ms != [] && Less(name, ms[0].key)
    ensures forall i :: 0 <= i < |ms| ==> !Shows(ms[i])
  {
    forall i | 0 <= i < |ms|
      ensures !Shows(ms[i])
    {
      if i > 0 {
        Transitive(name, ms[0].key, ms[i].key);
      }
      LessNotSymmetric(name, ms[i].key);
    }
  }

  lemma {:induction false} TaggedHas(ms: seq<Member>, i: nat)
    requires i < |ms| && Numbered(ms[i].key)
    ensures ms[i] in Tagged(ms)
  {
    if i > 0 {
      TaggedHas(ms[1..], i - 1);
    }
  }

  lemma FiledBefore(ms: seq<Member>, order: seq<Member>, key: string)
    requires Tagged(ms) == Filed(order)
    ensures AllBefore(ms, NameAt(|order|, key))
  {
    forall i | 0 <= i < |ms| && Shows(ms[i])
      ensures Less(ms[i].key, NameAt(|order|, key))
    {
      TaggedHas(ms, i);
      var j :| 0 <= j < |order| && Filed(order)[j] == ms[i];
      FiledAt(order, j);
      TagsAscend(j, |order|, order[j].key, key);
    }
  }

  /** A new key that is a tag and a dash with nothing behind it is shown as it should be. */
  lemma BareKeyShows(ms: seq<Member>, order: seq<Member>, key: string, value: JSON)
    requires Keeps(ms, order) && Numbered(key) && Stripped(key) == [] && Find(ms, key) == None && !Has(order, key)
    ensures Shown(Assigned(ms, key, value)) == Named(Upsert(order, key, value))
  {
    NewTagIsNext(ms, order);
    var name := NameAt(|order|, key);
    var ms1 := Put(ms, key, String(name));
    HiddenStaysHidden(ms, key, String(name));
    PutKeepsSorted(ms, key, String(name));
    NameIsNew(ms, order, |order|, key);
    assert |name| > |key|;
    FindPut(ms, key, String(name), name);
    FiledBefore(ms, order, key);
    forall i | 0 <= i < |ms1| && Shows(ms1[i])
      ensures Less(ms1[i].key, name)
    {
      assert ms1[i] in ms1;
    }
    LastIsShownLast(ms1, name, value);
    BeforeDashIsPrefix(key);
    NameShows(|order|, key, value);
    TagNameSplits(|order|, key);
    StripName(Tag(|order|), key);
    ShowsOrder(ms, order);
    UpsertNew(order, key, value);
    NamedLast(order, Member(key, value));
  }

  lemma NamedLast(order: seq<Member>, m: Member)
    ensures Named(order + [m]) == if m.key != "" then Named(order) + [m] else Named(order)
  {
    assert (order + [m])[..|order|] == order;
  }

  /**
   A key that is new to list and map is shown as it should be, if and only if it is not of the form
   of a name with something behind its dash.
   */
  lemma NewKeyShowsIff(ms: seq<Member>, order: seq<Member>, key: string, value: JSON)
    requires Keeps(ms, order) && !Has(order, key) && Find(ms, key) == None
    ensures Shown(Assigned(ms, key, value)) == Named(Upsert(order, key, value))
       <==> !(Numbered(key) && Stripped(key) != [])
  {
    if !Numbered(key) {
      AssignNewKeeps(ms, order, key, value);
      ShowsOrder(Assigned(ms, key, value), Upsert(order, key, value));
    } else if Stripped(key) == [] {
      BareKeyShows(ms, order, key, value);
    } else {
      NumberedKeyShowsTwo(ms, order, key, value);
    }
  }

  lemma {:induction false} FindAt(ms: seq<Member>, j: nat)
    requires SortedKeys(ms) && j < |ms|
    ensures Find(ms, ms[j].key) == Some(ms[j].value)
  {
    if j > 0 {
      LessNotSymmetric(ms[0].key, ms[j].key);
      FindAt(ms[1..], j - 1);
    }
  }

  /**
   A key that is the name of the j-th member does not reach the list at all: the value is put under
   the text of that member's value, and one more member is shown only if that text is itself a new
   name with something behind its dash.
   */
  lemma NameAsKeyShows(ms: seq<Member>, order: seq<Member>, j: nat, value: JSON)
    requires Keeps(ms, order) && j < |order|
    ensures var key, target := NameAt(j, order[j].key), KeyText(order[j].value);
            && Assigned(ms, key, value) == Put(ms, target, value)
            && |Shown(Assigned(ms, key, value))|
               == |Shown(ms)| + One(Find(ms, target).None? && Shows(Member(target, value)))
  {
    var key := NameAt(j, order[j].key);
    TagNameSplits(j, order[j].key);
    FiledAscends(order);
    FiledAt(order, j);
    FindAt(Filed(order), j);
    FindTagged(ms, key);
    PutShows(ms, KeyText(order[j].value), value);
  }

  // ----- The code -----

  method IsNumberText(s: string) returns (b: bool)
    ensures b == IsNumber(s)
  {
    if |s| == 0 {
      return false;
    }
    for i := 0 to |s|
      invariant forall k :: 0 <= k < i ==> IsDigit(s[k])
    {
      if !IsDigit(s[i]) {
        return false;
      }
    }
    return true;
  }

  lemma {:induction false} DashFound(s: string, pos: nat)
    requires pos < |s| && s[pos] == '-' && forall i :: 0 <= i < pos ==> s[i] != '-'
    ensures BeforeDash(s) == Some(s[..pos])
  {
    if pos > 0 {
      DashFound(s[1..], pos - 1);
      assert s[..pos] == [s[0]] + s[1..][..pos - 1];
    }
  }

  lemma {:induction false} NoDash(s: string)
    requires forall i :: 0 <= i < |s| ==> s[i] != '-'
    ensures BeforeDash(s) == None
  {
    if s != [] {
      NoDash(s[1..]);
    }
  }

  /** The position of the first dash, or the length of the text. */
  method FindDash(s: string) returns (pos: nat)
    ensures pos <= |s| && BeforeDash(s) == if pos < |s| then Some(s[..pos]) else None
  {
    pos := 0;
    while pos < |s| && s[pos] != '-'
      invariant pos <= |s| && forall i :: 0 <= i < pos ==> s[i] != '-'
    {
      pos := pos + 1;
    }
    if pos < |s| {
      DashFound(s, pos);
    } else {
      NoDash(s);
    }
  }

  lemma NewTagSkips(ms: seq<Member>, i: nat)
    requires 0 < i <= |ms| && !Numbered(ms[i - 1].key)
    ensures NewTag(ms[..i]) == NewTag(ms[..i - 1])
  {
    assert ms[..i][..i - 1] == ms[..i - 1];
  }

  /** The name for a new key: the map is walked backwards to the last tag. */
  method NewName(entries: seq<Member>, key: string) returns (name: string)
    ensures name == Name(NewTag(entries), key)
  {
    var i := |entries|;
    assert entries[..i] == entries;
    while i > 0
      invariant i <= |entries| && NewTag(entries) == NewTag(entries[..i])
    {
      var tkey := entries[i - 1].key;
      var spos := FindDash(tkey);
      if spos < |tkey| {
        var tag := tkey[..spos];
        var number := IsNumberText(tag);
        if number {
          var lpos := |tag| - 1;
          if tag[lpos] >= '9' {
            tag := tag + "0";
          } else {
            tag := tag[..lpos] + [tag[lpos] + 1 as char];
          }
          return tag + "-" + key;
        }
      }
      NewTagSkips(entries, i);
      i := i - 1;
    }
    return "0" + "-" + key;
  }

  lemma ShownMore(ms: seq<Member>, i: nat)
    requires i < |ms|
    ensures Shown(ms[..i + 1])
         == if Shows(ms[i]) then Shown(ms[..i]) + [Member(Stripped(ms[i].key), ms[i].value)] else Shown(ms[..i])
  {
    assert ms[..i + 1][..i] == ms[..i];
  }

  /** The key under which an entry is printed, if it is printed. */
  method ShownKey(name: string) returns (key: Option<string>)
    ensures key == if Numbered(name) && Stripped(name) != [] then Some(Stripped(name)) else None
  {
    var pos := FindDash(name);
    var tag, rest := "", name;
    if pos < |name| && pos + 1 < |name| {
      tag, rest := name[..pos], name[pos + 1..];
    }
    var number := IsNumberText(tag);
    return if number then Some(rest) else None;
  }

  class FioObject {
    var entries: seq<Member>

    constructor ()
      ensures entries == []
    {
      entries := [];
    }

    /** `object[key] = value`. */
    method Assign(key: string, value: JSON)
      modifies this
      ensures entries == Assigned(old(entries), key, value)
    {
      var name: string;
      match Find(entries, key) {
        case Some(stored) => name := KeyText(stored);
        case None =>
          name := NewName(entries, key);
          entries := Put(entries, key, String(name));
      }
      entries := Put(entries, name, value);
    }

    /** dump_vector. */
    method Dump() returns (v: string)
      ensures v == "{" + PrintMembers(Shown(entries)) + "}"
    {
      v := "{";
      var skip := true;
      for i := 0 to |entries|
        invariant skip == (Shown(entries[..i]) == []) && v == "{" + PrintMembers(Shown(entries[..i]))
      {
        ShownMore(entries, i);
        var key := ShownKey(entries[i].key);
        if key.Some? {
          v := AppendMember(v, skip, key.value, entries[i].value, Shown(entries[..i]));
          skip := false;
        }
      }
      assert entries[..|entries|] == entries;
      v := v + "}";
    }
  }

  /** Any distinct keys, assigned to a new object: the text has them in that order. */
  method BuildAndDump(ops: seq<Member>) returns (v: string)
    requires Distinct(ops) && forall i :: 0 <= i < |ops| ==> ops[i].key != "" && !Numbered(ops[i].key)
    ensures v == Print(Object(ops))
  {
    var o := new FioObject();
    for i := 0 to |ops|
      invariant o.entries == AssignAll(ops[..i])
    {
      assert ops[..i + 1][..i] == ops[..i];
      o.Assign(ops[i].key, ops[i].value);
    }
    assert ops[..|ops|] == ops;
    DistinctRun(ops);
    v := o.Dump();
  }
}
