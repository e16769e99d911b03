/**
 Handing the workload over to a new version (src/enclave/workload/Workload.cpp:77-144, 172-215,
 250-392 and src/enclave/identity/Identity.cpp:896-960, 983-1084). The old version exports its srd
 list, its files without the pending ones, the roots over both and a signature; the new version
 reads the text, restores the lists, computes the roots again and accepts only if the signature
 and the roots are right. Hashing and signing are parameters.
 */
module Upgrade {
  import opened Basics
  import opened Json
  import Fio
  import opened SrdStore

  const PENDING := '4'

  function ZeroHash(): Hash { Zeros(32) }

  /** SHA-256, signing with the worker's key, and verifying. */
  datatype Crypto = Crypto(sha: Bytes -> Hash, sign: seq<int> -> Bytes, verify: (seq<int>, Bytes) -> bool)

  /** Signatures are 64 bytes, and those that were made verify. */
  ghost predicate Sound(c: Crypto) {
    forall m :: |c.sign(m)| == 64 && c.verify(m, c.sign(m))
  }

  // ----- Fields of JSON values -----

  function Members(v: JSON): seq<Member> { if v.Object? then v.members else [] }

  /** `value[key]`, which is null if there is no such member. */
  function Field(v: JSON, key: string): JSON {
    match Fio.Find(Members(v), key)
    case Some(x) => x
    case None => Null
  }

  function CharAt(v: JSON, i: nat): char { if v.String? && i < |v.s| then v.s[i] else '\0' }

  predicate Pending(file: JSON) { CharAt(Field(file, "status"), 0) == PENDING }

  /** The 32 bytes of a file's hash; every sealed file has one. */
  function HashOf(file: JSON): Hash {
    match Field(file, "hash")
    case HashValue(h) => h
    case _ => ZeroHash()
  }

  // ----- Roots -----

  /** The files that are not pending, in their order. */
  function Kept(files: seq<JSON>): seq<JSON> {
    if files == [] then []
    else
      var n := |files| - 1;
      if Pending(files[n]) then Kept(files[..n]) else Kept(files[..n]) + [files[n]]
  }

  function Hashes(files: seq<JSON>): Bytes {
    if files == [] then [] else Hashes(files[..|files| - 1]) + HashOf(files[|files| - 1])
  }

  function Joined(items: seq<Bytes>): Bytes {
    if items == [] then [] else Joined(items[..|items| - 1]) + items[|items| - 1]
  }

  function FileRoot(c: Crypto, files: seq<JSON>): Hash {
    if files == [] then ZeroHash() else c.sha(Hashes(Kept(files)))
  }

  function SrdRoot(c: Crypto, srd: seq<Bytes>): Hash {
    if srd == [] then ZeroHash() else c.sha(Joined(srd))
  }

  lemma {:induction false} HashesLength(files: seq<JSON>)
    ensures |Hashes(files)| == 32 * |files|
  {
    if files != [] {
      HashesLength(files[..|files| - 1]);
    }
  }

  lemma SliceOf(a: Bytes, b: Bytes, k: nat)
    requires |b| == 32 && (k == |a| || k + 32 <= |a|)
    ensures (a + b)[k..k + 32] == if k == |a| then b else a[k..k + 32]
  {
  }

  /** The hashed bytes: 32 for each file, in the order of the files. */
  lemma {:induction false} HashesLayout(files: seq<JSON>, i: nat)
    requires i < |files|
    ensures |Hashes(files)| == 32 * |files| && Hashes(files)[32 * i..32 * i + 32] == HashOf(files[i])
  {
    var n := |files| - 1;
    HashesLength(files);
    var front := files[..n];
    HashesLength(front);
    var a, b := Hashes(front), HashOf(files[n]);
    SliceOf(a, b, 32 * i);
    if i < n {
      HashesLayout(front, i);
      assert front[i] == files[i];
    }
  }

  /** The first character of the status decides whether a file is pending. */
  lemma StatusDecides(ms: seq<Member>, status: string)
    requires SortedKeys(ms)
    ensures Pending(Object(Put(ms, "status", String(status)))) <==> status != "" && status[0] == '4'
  {
    Fio.FindPut(ms, "status", String(status), "status");
  }

  lemma {:induction false} KeptTwice(files: seq<JSON>)
    ensures Kept(Kept(files)) == Kept(files)
  {
    if files != [] {
      var n := |files| - 1;
      KeptTwice(files[..n]);
      if !Pending(files[n]) {
        assert Kept(files)[..|Kept(files)| - 1] == Kept(files[..n]);
      }
    }
  }

  /** Exporter and importer agree on the root of the files exactly if there is a file to hash, or no file at all. */
  lemma SameFileRootIff(c: Crypto, files: seq<JSON>)
    ensures FileRoot(c, Kept(files)) == FileRoot(c, files)
       <==> files == [] || Kept(files) != [] || c.sha([]) == ZeroHash()
  {
    KeptTwice(files);
  }

  // ----- Exporting -----

  function Codes(s: string): (r: seq<int>)
    ensures |r| == |s|
  {
    if s == [] then [] else Codes(s[..|s| - 1]) + [s[|s| - 1] as int]
  }

  /** The signed message. */
  function Message(pub: Bytes, height: string, block: string, srdRoot: Hash, fileRoot: Hash): seq<int> {
    pub + Codes(height) + Codes(block) + srdRoot + fileRoot
  }

  datatype Worker = Worker(pub: Bytes, srd: seq<Item>, files: seq<JSON>)

  function SrdTexts(srd: seq<Item>): (r: seq<JSON>)
    ensures |r| == |srd|
  {
    if srd == [] then [] else SrdTexts(srd[..|srd| - 1]) + [String(Hex(srd[|srd| - 1]))]
  }

  function Signed(c: Crypto, w: Worker, height: nat, block: string): seq<int> {
    Message(w.pub, Decimal(height), block, SrdRoot(c, w.srd), FileRoot(c, w.files))
  }

  /** What is exported, as it stands in the JSON object. */
  datatype Data = Data(pub: string, height: string, block: string, srd: JSON, files: JSON,
                       srdRoot: string, fileRoot: string, sig: string)

  /** The members of the exported object, in the order in which they are assigned. */
  function Assignments(d: Data): (ms: seq<Member>)
    ensures |ms| == 8
  {
    [Member("pub_key", String(d.pub)),
     Member("block_height", String(d.height)),
     Member("block_hash", String(d.block)),
     Member("upgrade_srd", d.srd),
     Member("upgrade_file", d.files),
     Member("upgrade_srd_root", String(d.srdRoot)),
     Member("upgrade_file_root", String(d.fileRoot)),
     Member("upgrade_sig", String(d.sig))]
  }

  function DataOf(c: Crypto, w: Worker, height: nat, block: string): Data {
    Data(Hex(w.pub), Decimal(height), block, Array(SrdTexts(w.srd)), Array(Kept(w.files)),
         Hex(SrdRoot(c, w.srd)), Hex(FileRoot(c, w.files)), Hex(c.sign(Signed(c, w, height, block))))
  }

  function ExportJson(c: Crypto, w: Worker, height: nat, block: string): JSON {
    Object(PutAll(Assignments(DataOf(c, w, height, block))))
  }

  /** The exported text. */
  function Export(c: Crypto, w: Worker, height: nat, block: string): string {
    Print(ExportJson(c, w, height, block))
  }

  // ----- Importing -----

  /** What the new worker has after restoring, the message it checks, and whether it accepts. */
  datatype Import = Failed | Restored(srd: seq<Bytes>, files: seq<JSON>, message: seq<int>, accepted: bool)

  /** The elements of the srd array as bytes, each if it is such a text. */
  function Decoded(items: seq<JSON>): (r: seq<Option<Bytes>>)
    ensures |r| == |items|
  {
    if items == [] then [] else Decoded(items[..|items| - 1]) + [HexToBytes(KeyText(items[|items| - 1]))]
  }

  function AllOf(parts: seq<Option<Bytes>>): Option<seq<Bytes>> {
    if parts == [] then Some([])
    else
      var before, last := AllOf(parts[..|parts| - 1]), parts[|parts| - 1];
      if before.None? || last.None? then None else Some(before.value + [last.value])
  }

  /** restore_srd on the elements. */
  function SrdFrom(items: seq<JSON>): Option<seq<Bytes>> { AllOf(Decoded(items)) }

  lemma DecodedMore(items: seq<JSON>, i: nat)
    requires i < |items|
    ensures Decoded(items[..i + 1]) == Decoded(items[..i]) + [HexToBytes(KeyText(items[i]))]
  {
    assert items[..i + 1][..i] == items[..i];
  }

  lemma AllOfMore(parts: seq<Option<Bytes>>, last: Option<Bytes>)
    ensures AllOf(parts + [last])
         == if AllOf(parts).None? || last.None? then None else Some(AllOf(parts).value + [last.value])
  {
    assert (parts + [last])[..|parts|] == parts;
  }

  lemma {:induction false} AllOfFails(parts: seq<Option<Bytes>>, k: nat)
    requires k < |parts| && parts[k].None?
    ensures AllOf(parts).None?
  {
    if k < |parts| - 1 {
      AllOfFails(parts[..|parts| - 1], k);
    }
  }

  lemma {:induction false} DecodedAt(items: seq<JSON>, i: nat)
    requires i < |items|
    ensures Decoded(items)[i] == HexToBytes(KeyText(items[i]))
  {
    if i < |items| - 1 {
      DecodedAt(items[..|items| - 1], i);
    }
  }

  /** id_restore_from_upgrade on a fresh worker, up to its entering the network. */
  function Restore(c: Crypto, text: string): Import {
    match Load(text)
    case Stuck => Failed
    case Done(v, _, ok) => if !ok then Failed else RestoreFrom(c, v)
  }

  function RestoreFrom(c: Crypto, v: JSON): Import {
    var srdJson, fileJson := Field(v, "upgrade_srd"), Field(v, "upgrade_file");
    match HexToBytes(KeyText(Field(v, "pub_key")))
    case None => Failed
    case Some(pub) =>
      if |pub| < 64 || !srdJson.Array? || !fileJson.Array? then Failed
      else
        match SrdFrom(srdJson.items)
        case None => Failed
        case Some(srd) => Checked(c, v, pub[..64], srd, Kept(fileJson.items))
  }

  function Checked(c: Crypto, v: JSON, pub: Bytes, srd: seq<Bytes>, files: seq<JSON>): Import {
    var srdRoot, fileRoot := SrdRoot(c, srd), FileRoot(c, files);
    var message := Message(pub, KeyText(Field(v, "block_height")), KeyText(Field(v, "block_hash")), srdRoot, fileRoot);
    match HexToBytes(KeyText(Field(v, "upgrade_sig")))
    case None => Failed
    case Some(sig) =>
      if |sig| < 64 then Failed
      else
        var accepted := c.verify(message, sig[..64])
                        && Hex(srdRoot) == KeyText(Field(v, "upgrade_srd_root"))
                        && Hex(fileRoot) == KeyText(Field(v, "upgrade_file_root"));
        Restored(srd, files, message, accepted)
  }

  // ----- The text is read back -----

  lemma UntaggedStart(s: string)
    requires s != [] ==> s[0] != '$'
    ensures !Tagged(s)
  {
    assert HASH_TAG[0] == '$';
  }

  lemma HexStart(bytes: Bytes)
    ensures bytes != [] ==> Hex(bytes)[0] == HexDigit(bytes[0] / 16)
  {
  }

  lemma {:induction false} HexPlain(bytes: Bytes)
    ensures Clean(String(Hex(bytes))) && KeyText(String(Hex(bytes))) == Hex(bytes)
    ensures bytes != [] ==> HexToBytes(Hex(bytes)) == Some(bytes)
  {
    HexReads(bytes);
    PlainEscapes(Hex(bytes));
    HexStart(bytes);
    UntaggedStart(Hex(bytes));
  }

  lemma {:induction false} SrdTextsClean(srd: seq<Item>)
    ensures Clean(Array(SrdTexts(srd)))
  {
    if srd != [] {
      SrdTextsClean(srd[..|srd| - 1]);
      HexPlain(srd[|srd| - 1]);
    }
  }

  lemma {:induction false} SrdTextAt(srd: seq<Item>, i: nat)
    requires i < |srd|
    ensures SrdTexts(srd)[i] == String(Hex(srd[i]))
  {
    if i < |srd| - 1 {
      SrdTextAt(srd[..|srd| - 1], i);
    }
  }

  lemma {:induction false} AllOfSome(parts: seq<Option<Bytes>>, bs: seq<Bytes>)
    requires |parts| == |bs| && forall i :: 0 <= i < |bs| ==> parts[i] == Some(bs[i])
    ensures AllOf(parts) == Some(bs)
  {
    if bs != [] {
      var n := |bs| - 1;
      AllOfSome(parts[..n], bs[..n]);
      assert bs == bs[..n] + [bs[n]];
    }
  }

  lemma SrdRestored(srd: seq<Item>)
    ensures SrdFrom(SrdTexts(srd)) == Some(srd)
  {
    var parts := Decoded(SrdTexts(srd));
    forall i | 0 <= i < |srd|
      ensures parts[i] == Some(srd[i])
    {
      DecodedAt(SrdTexts(srd), i);
      SrdTextAt(srd, i);
      HexPlain(srd[i]);
    }
    AllOfSome(parts, srd);
  }

  // ----- An object built by assignments -----

  function PutAll(ms: seq<Member>): seq<Member> {
    if ms == [] then []
    else
      var n := |ms| - 1;
      Put(PutAll(ms[..n]), ms[n].key, ms[n].value)
  }

  ghost predicate MemberOk(m: Member) { IsWord(m.key) && Clean(m.value) }

  lemma {:induction false} PutAllClean(ms: seq<Member>)
    requires forall i :: 0 <= i < |ms| ==> MemberOk(ms[i])
    ensures Clean(Object(PutAll(ms)))
  {
    if ms != [] {
      var n := |ms| - 1;
      PutAllClean(ms[..n]);
      NameOk(ms[n].key);
      PutClean(PutAll(ms[..n]), ms[n]);
    }
  }

  lemma PutClean(ms: seq<Member>, m: Member)
    requires Clean(Object(ms)) && KeyOk(m.key) && Clean(m.value)
    ensures Clean(Object(Put(ms, m.key, m.value)))
  {
    PutKeepsSorted(ms, m.key, m.value);
    var ms' := Put(ms, m.key, m.value);
    forall i | 0 <= i < |ms'|
      ensures KeyOk(ms'[i].key) && Clean(ms'[i].value)
    {
      assert ms'[i] in ms';
    }
  }

  lemma {:induction false} PutAllSorted(ms: seq<Member>)
    ensures SortedKeys(PutAll(ms))
  {
    if ms != [] {
      var n := |ms| - 1;
      PutAllSorted(ms[..n]);
      PutKeepsSorted(PutAll(ms[..n]), ms[n].key, ms[n].value);
    }
  }

  lemma {:induction false} FindPutAll(ms: seq<Member>, i: nat)
    requires i < |ms| && Fio.Distinct(ms)
    ensures Fio.Find(PutAll(ms), ms[i].key) == Some(ms[i].value)
  {
    var n := |ms| - 1;
    PutAllSorted(ms[..n]);
    Fio.FindPut(PutAll(ms[..n]), ms[n].key, ms[n].value, ms[i].key);
    if i < n {
      FindPutAll(ms[..n], i);
    }
  }

  lemma KeysDiffer(d: Data)
    ensures Fio.Distinct(Assignments(d))
  {
    var ms := Assignments(d);
    assert ms[7].key[9] == 'i' && ms[3].key[9] == 'r';
    assert ms[1].key[0] == 'b' && ms[4].key[0] == 'u';
  }

  predicate IsWord(s: string) {
    s != [] && forall i :: 0 <= i < |s| ==> 'a' <= s[i] <= 'z' || s[i] == '_'
  }

  lemma NameOk(k: string)
    requires IsWord(k)
    ensures KeyOk(k)
  {
    UntaggedStart(k);
    PlainKeyOk(k);
  }

  lemma NamesAreWords()
    ensures IsWord("pub_key") && IsWord("block_height") && IsWord("block_hash") && IsWord("upgrade_srd")
    ensures IsWord("upgrade_file") && IsWord("upgrade_srd_root") && IsWord("upgrade_file_root") && IsWord("upgrade_sig")
  {
  }

  /** The hash of a block, as the chain gives it. */
  predicate HexText(s: string) {
    |s| == 64 && forall i :: 0 <= i < |s| ==> IsHexDigit(s[i])
  }

  lemma TextOk(s: string)
    requires s != [] && forall i :: 0 <= i < |s| ==> IsHexDigit(s[i])
    ensures Clean(String(s)) && KeyText(String(s)) == s
  {
    UntaggedStart(s);
    PlainEscapes(s);
  }

  lemma HeightOk(height: nat)
    ensures Clean(String(Decimal(height))) && KeyText(String(Decimal(height))) == Decimal(height)
  {
    DecimalReads(height);
    TextOk(Decimal(height));
  }

  /** The files that are handed over can be printed and read back. */
  ghost predicate Exportable(w: Worker, block: string) {
    |w.pub| == 64 && HexText(block) && Clean(Array(Kept(w.files)))
  }

  ghost predicate CleanData(d: Data) {
    Clean(String(d.pub)) && Clean(String(d.height)) && Clean(String(d.block)) && Clean(d.srd) && Clean(d.files)
    && Clean(String(d.srdRoot)) && Clean(String(d.fileRoot)) && Clean(String(d.sig))
  }

  lemma DataIsClean(c: Crypto, w: Worker, height: nat, block: string)
    requires Exportable(w, block)
    ensures CleanData(DataOf(c, w, height, block))
  {
    HexPlain(w.pub);
    HeightOk(height);
    TextOk(block);
    SrdTextsClean(w.srd);
    HexPlain(SrdRoot(c, w.srd));
    HexPlain(FileRoot(c, w.files));
    HexPlain(c.sign(Signed(c, w, height, block)));
  }

  lemma AssignmentOk(d: Data, i: nat)
    requires CleanData(d) && i < 8
    ensures MemberOk(Assignments(d)[i])
  {
    NamesAreWords();
  }

  lemma ExportReads(c: Crypto, w: Worker, height: nat, block: string)
    requires Exportable(w, block)
    ensures Load(Export(c, w, height, block)) == Done(ExportJson(c, w, height, block), "", true)
  {
    var d := DataOf(c, w, height, block);
    DataIsClean(c, w, height, block);
    forall i | 0 <= i < 8
      ensures MemberOk(Assignments(d)[i])
    {
      AssignmentOk(d, i);
    }
    PutAllClean(Assignments(d));
    RoundTripIffClean(ExportJson(c, w, height, block));
  }

  lemma {:induction false} FoundIsMember(ms: seq<Member>, key: string)
    ensures Fio.Find(ms, key).Some? ==> exists i :: 0 <= i < |ms| && ms[i].value == Fio.Find(ms, key).value
  {
    if ms != [] && ms[0].key != key {
      FoundIsMember(ms[1..], key);
      if Fio.Find(ms, key).Some? {
        var i :| 0 <= i < |ms[1..]| && ms[1..][i].value == Fio.Find(ms, key).value;
        assert ms[i + 1].value == Fio.Find(ms, key).value;
      }
    }
  }

  /** A clean object has clean members. */
  lemma FieldClean(ms: seq<Member>, key: string)
    requires Clean(Object(ms)) && Fio.Find(ms, key).Some?
    ensures Clean(Fio.Find(ms, key).value)
  {
    FoundIsMember(ms, key);
  }

  /** The exported text is read back as it was exported if and only if the files that are handed over can be. */
  lemma ExportReadsIff(c: Crypto, w: Worker, height: nat, block: string)
    requires |w.pub| == 64 && HexText(block)
    ensures Load(Export(c, w, height, block)) == Done(ExportJson(c, w, height, block), "", true)
       <==> Clean(Array(Kept(w.files)))
  {
    if Clean(Array(Kept(w.files))) {
      ExportReads(c, w, height, block);
    } else {
      var ms := Assignments(DataOf(c, w, height, block));
      RoundTripIffClean(ExportJson(c, w, height, block));
      KeysDiffer(DataOf(c, w, height, block));
      FindPutAll(ms, 4);
      if Clean(Object(PutAll(ms))) {
        FieldClean(PutAll(ms), ms[4].key);
      }
    }
  }

  // ----- The entries of the table -----

  /** What storage_seal_file_end puts together for the table. */
  datatype Sealed = Sealed(size: Long, sealedSize: Long, blocks: Long, cid: string, hash: Hash, height: Long)

  function EntryMembers(e: Sealed): (ms: seq<Member>)
    ensures |ms| == 7
  {
    [Member("size", Integral(e.size)),
     Member("s_size", Integral(e.sealedSize)),
     Member("block_num", Integral(e.blocks)),
     Member("cid", String(e.cid)),
     Member("hash", HashValue(e.hash)),
     Member("c_block_num", Integral(e.height)),
     Member("status", String("100"))]
  }

  function EntryJson(e: Sealed): JSON { Object(PutAll(EntryMembers(e))) }

  lemma EntryNamesAreWords()
    ensures IsWord("size") && IsWord("s_size") && IsWord("block_num") && IsWord("cid") && IsWord("hash")
    ensures IsWord("c_block_num") && IsWord("status")
  {
  }

  lemma StatusClean()
    ensures Clean(String("100"))
  {
    UntaggedStart("100");
  }

  lemma EntryMemberOk(e: Sealed, i: nat)
    requires i < 7 && !Tagged(e.cid)
    ensures MemberOk(EntryMembers(e)[i])
  {
    EntryNamesAreWords();
    StatusClean();
  }

  lemma EntryKeysDiffer(e: Sealed)
    ensures Fio.Distinct(EntryMembers(e))
  {
    var ms := EntryMembers(e);
    assert ms[0].key[0] == 's' && ms[4].key[0] == 'h';
    assert ms[1].key[1] == '_' && ms[6].key[1] == 't';
  }

  /** An entry of the table can be handed over if and only if its CID does not begin with the hash tag. */
  lemma EntryCleanIff(e: Sealed)
    ensures Clean(EntryJson(e)) <==> !Tagged(e.cid)
  {
    var ms := EntryMembers(e);
    if !Tagged(e.cid) {
      forall i | 0 <= i < 7
        ensures MemberOk(ms[i])
      {
        EntryMemberOk(e, i);
      }
      PutAllClean(ms);
    } else {
      EntryKeysDiffer(e);
      FindPutAll(ms, 3);
      if Clean(EntryJson(e)) {
        FieldClean(PutAll(ms), ms[3].key);
      }
    }
  }

  lemma FieldIs(d: Data, i: nat)
    requires i < 8
    ensures Field(Object(PutAll(Assignments(d))), Assignments(d)[i].key) == Assignments(d)[i].value
  {
    KeysDiffer(d);
    FindPutAll(Assignments(d), i);
  }

  /** The members that the importer asks for. */
  ghost predicate Carries(v: JSON, d: Data) {
    Field(v, "pub_key") == String(d.pub) && Field(v, "block_height") == String(d.height)
    && Field(v, "block_hash") == String(d.block) && Field(v, "upgrade_srd") == d.srd
    && Field(v, "upgrade_file") == d.files && Field(v, "upgrade_srd_root") == String(d.srdRoot)
    && Field(v, "upgrade_file_root") == String(d.fileRoot) && Field(v, "upgrade_sig") == String(d.sig)
  }

  lemma FieldsAre(d: Data)
    ensures Carries(Object(PutAll(Assignments(d))), d)
  {
    FieldIs(d, 0);
    FieldIs(d, 1);
    FieldIs(d, 2);
    FieldIs(d, 3);
    FieldIs(d, 4);
    FieldIs(d, 5);
    FieldIs(d, 6);
    FieldIs(d, 7);
  }

  // ----- The handover -----

  lemma MessageEnds(pub: Bytes, height: string, block: string, srdRoot: Hash, r1: Hash, r2: Hash)
    ensures Message(pub, height, block, srdRoot, r1) == Message(pub, height, block, srdRoot, r2) <==> r1 == r2
  {
    var front := pub + Codes(height) + Codes(block) + srdRoot;
    var m1, m2 := Message(pub, height, block, srdRoot, r1), Message(pub, height, block, srdRoot, r2);
    assert m1[|front|..] == r1 && m2[|front|..] == r2;
  }

  lemma {:induction false} CodesAt(s: string, i: nat)
    requires i < |s|
    ensures Codes(s)[i] == s[i] as int
  {
    if i < |s| - 1 {
      CodesAt(s[..|s| - 1], i);
    }
  }

  lemma SameCodes(s: string, t: string)
    requires Codes(s) == Codes(t)
    ensures s == t
  {
    assert |s| == |Codes(s)| == |Codes(t)| == |t|;
    forall i | 0 <= i < |s|
      ensures s[i] == t[i]
    {
      CodesAt(s, i);
      CodesAt(t, i);
    }
  }

  lemma {:induction false} CodesAppend(s: string, t: string)
    ensures Codes(s + t) == Codes(s) + Codes(t)
    decreases |t|
  {
    if t == [] {
      assert s + t == s;
    } else {
      var n := |t| - 1;
      assert (s + t)[..|s + t| - 1] == s + t[..n];
      CodesAppend(s, t[..n]);
    }
  }

  lemma MessageParts(pub: Bytes, height: string, block: string, srdRoot: Hash, fileRoot: Hash)
    ensures Message(pub, height, block, srdRoot, fileRoot) == pub + (Codes(height + block) + (srdRoot + fileRoot))
  {
    CodesAppend(height, block);
  }

  lemma PartsAt(m: seq<int>, a: seq<int>, b: seq<int>, c: seq<int>)
    requires m == a + (b + c)
    ensures |m| == |a| + |b| + |c|
    ensures m[..|a|] == a && m[|a|..|a| + |b|] == b && m[|a| + |b|..] == c
  {
  }

  /** Where the fields of the signed message are: the key, the height, the block hash, and the two roots last. */
  lemma MessageLayout(pub: Bytes, height: string, block: string, srdRoot: Hash, fileRoot: Hash, m: seq<int>)
    requires m == Message(pub, height, block, srdRoot, fileRoot)
    ensures |m| == |pub| + |height + block| + 64 && m[..|pub|] == pub
    ensures m[|pub|..|pub| + |height + block|] == Codes(height + block)
    ensures m[|pub| + |height + block|..] == srdRoot + fileRoot
  {
    MessageParts(pub, height, block, srdRoot, fileRoot);
    PartsAt(m, pub, Codes(height + block), srdRoot + fileRoot);
  }

  lemma SameRoots(a: Hash, b: Hash, c: Hash, d: Hash)
    requires a + b == c + d
    ensures a == c && b == d
  {
    assert a == (a + b)[..32] && c == (c + d)[..32];
    assert b == (a + b)[32..] && d == (c + d)[32..];
  }

  lemma SplitsIff(height: string, block: string, height': string, block': string)
    requires height + block == height' + block'
    ensures height == height' && block == block' <==> |block| == |block'|
  {
    if |block| == |block'| {
      var all := height + block;
      assert |height| == |height'|;
      assert height == all[..|height|] && block == all[|height|..];
      assert height' == all[..|height'|] && block' == all[|height'|..];
    }
  }

  /**
   A signature covers the key, both roots, and the height and the block hash as one text: where one
   ends and the other begins is covered exactly if the block hashes have equal lengths.
   */
  lemma MessageBindsIff(
      pub: Bytes, height: string, block: string, srd: Hash, file: Hash,
      pub': Bytes, height': string, block': string, srd': Hash, file': Hash)
    requires |pub| == |pub'|
    ensures Message(pub, height, block, srd, file) == Message(pub', height', block', srd', file')
       <==> pub == pub' && height + block == height' + block' && srd == srd' && file == file'
    ensures height + block == height' + block' ==> (height == height' && block == block' <==> |block| == |block'|)
  {
    var m := Message(pub, height, block, srd, file);
    if m == Message(pub', height', block', srd', file') {
      MessageLayout(pub, height, block, srd, file, m);
      MessageLayout(pub', height', block', srd', file', m);
      SameRoots(srd, file, srd', file');
      SameCodes(height + block, height' + block');
    } else {
      MessageParts(pub, height, block, srd, file);
      MessageParts(pub', height', block', srd', file');
    }
    if height + block == height' + block' {
      SplitsIff(height, block, height', block');
    }
  }

  lemma SameHex(a: Hash, b: Hash)
    ensures Hex(a) == Hex(b) <==> a == b
  {
    HexReads(a);
    HexReads(b);
  }

  /** The texts that the importer reads are those that were exported. */
  lemma TextsRead(c: Crypto, w: Worker, height: nat, block: string)
    requires Exportable(w, block)
    ensures KeyText(String(Decimal(height))) == Decimal(height) && KeyText(String(block)) == block
    ensures KeyText(String(Hex(SrdRoot(c, w.srd)))) == Hex(SrdRoot(c, w.srd))
    ensures KeyText(String(Hex(FileRoot(c, w.files)))) == Hex(FileRoot(c, w.files))
  {
    HeightOk(height);
    TextOk(block);
    HexPlain(SrdRoot(c, w.srd));
    HexPlain(FileRoot(c, w.files));
  }

  /** The outcome of the checks, from the texts that are read. */
  lemma CheckedIs(
      c: Crypto, v: JSON, pub: Bytes, srd: seq<Bytes>, files: seq<JSON>, height: string, block: string, sig: Bytes)
    requires KeyText(Field(v, "block_height")) == height && KeyText(Field(v, "block_hash")) == block
    requires HexToBytes(KeyText(Field(v, "upgrade_sig"))) == Some(sig) && |sig| == 64 && sig[..64] == sig
    ensures var message := Message(pub, height, block, SrdRoot(c, srd), FileRoot(c, files));
            var accepted := c.verify(message, sig)
                            && Hex(SrdRoot(c, srd)) == KeyText(Field(v, "upgrade_srd_root"))
                            && Hex(FileRoot(c, files)) == KeyText(Field(v, "upgrade_file_root"));
            Checked(c, v, pub, srd, files) == Restored(srd, files, message, accepted)
  {
  }

  /** The checks of the new version, on the lists it has restored. */
  lemma CheckedIff(c: Crypto, w: Worker, height: nat, block: string, v: JSON)
    requires Sound(c) && Exportable(w, block) && Carries(v, DataOf(c, w, height, block))
    ensures var r := Checked(c, v, w.pub, w.srd, Kept(w.files));
            var same := FileRoot(c, Kept(w.files)) == FileRoot(c, w.files);
            r.Restored? && r.srd == w.srd && r.files == Kept(w.files)
            && (r.accepted <==> same) && (r.message == Signed(c, w, height, block) <==> same)
  {
    TextsRead(c, w, height, block);
    SignatureReads(c, Signed(c, w, height, block));
    CheckedIs(c, v, w.pub, w.srd, Kept(w.files), Decimal(height), block, c.sign(Signed(c, w, height, block)));
    SameHex(FileRoot(c, Kept(w.files)), FileRoot(c, w.files));
    MessageEnds(w.pub, Decimal(height), block, SrdRoot(c, w.srd), FileRoot(c, Kept(w.files)), FileRoot(c, w.files));
  }

  lemma SignatureReads(c: Crypto, m: seq<int>)
    requires Sound(c)
    ensures var sig := c.sign(m);
            HexToBytes(KeyText(String(Hex(sig)))) == Some(sig) && |sig| == 64 && sig[..64] == sig && c.verify(m, sig)
  {
    var sig := c.sign(m);
    assert |sig| == 64 && c.verify(m, sig);
    HexPlain(sig);
  }

  lemma RestoreReaches(c: Crypto, w: Worker, height: nat, block: string, v: JSON)
    requires Exportable(w, block) && Carries(v, DataOf(c, w, height, block))
    ensures RestoreFrom(c, v) == Checked(c, v, w.pub, w.srd, Kept(w.files))
  {
    HexPlain(w.pub);
    assert w.pub[..64] == w.pub;
    SrdRestored(w.srd);
    KeptTwice(w.files);
  }

  /**
   The new version ends up with the same srd list and the same files, without the pending ones and
   in the same order. It checks the signature against the very message that was signed, and
   accepts, if and only if the old table was empty or had a file that is not pending: the old
   version hashes no bytes where the new one takes zeros.
   */
  lemma Handover(c: Crypto, w: Worker, height: nat, block: string)
    requires Sound(c) && Exportable(w, block)
    ensures var r := Restore(c, Export(c, w, height, block));
            var fine := w.files == [] || Kept(w.files) != [] || c.sha([]) == ZeroHash();
            r.Restored? && r.srd == w.srd && r.files == Kept(w.files)
            && (r.accepted <==> fine) && (r.message == Signed(c, w, height, block) <==> fine)
  {
    var v := ExportJson(c, w, height, block);
    ExportReads(c, w, height, block);
    FieldsAre(DataOf(c, w, height, block));
    RestoreReaches(c, w, height, block, v);
    CheckedIff(c, w, height, block, v);
    SameFileRootIff(c, w.files);
  }

  // ----- The counters are restored -----

  function FirstChars(s: string, n: nat): string { if |s| < n then s else s[..n] }

  /** srd_detail as restore_srd builds it. */
  function DetailOf(items: seq<JSON>): map<string, int> {
    if items == [] then map[]
    else
      var n := |items| - 1;
      var before, uuid := DetailOf(items[..n]), FirstChars(KeyText(items[n]), 2 * UUID_LENGTH);
      before[uuid := Get(before, uuid) + 1]
  }

  lemma {:induction false} HexFront(bytes: Bytes, k: nat)
    requires k <= |bytes|
    ensures |Hex(bytes)| == 2 * |bytes| && Hex(bytes)[..2 * k] == Hex(bytes[..k])
  {
    if bytes != [] && k > 0 {
      HexFront(bytes[1..], k - 1);
      assert bytes[..k][1..] == bytes[1..][..k - 1] && bytes[..k][0] == bytes[0];
      var h := Hex(bytes);
      assert h[2..] == Hex(bytes[1..]);
      assert h[..2 * k] == h[..2] + h[2..][..2 * (k - 1)];
    } else if bytes != [] {
      HexFront(bytes[1..], 0);
    }
  }

  lemma UuidOfText(item: Item)
    ensures FirstChars(KeyText(String(Hex(item))), 2 * UUID_LENGTH) == Uuid(item)
  {
    HexPlain(item);
    HexFront(item, UUID_LENGTH);
  }

  /** One turn of the loop of restore_srd. */
  lemma OneMoreSrd(items: seq<JSON>, i: nat, bs: seq<Bytes>)
    requires i < |items| && SrdFrom(items[..i]) == Some(bs)
    ensures var hex := KeyText(items[i]);
            var uuid, before := FirstChars(hex, 2 * UUID_LENGTH), DetailOf(items[..i]);
            match HexToBytes(hex)
            case None => SrdFrom(items).None?
            case Some(hash) =>
              SrdFrom(items[..i + 1]) == Some(bs + [hash])
              && DetailOf(items[..i + 1]) == before[uuid := Get(before, uuid) + 1]
  {
    assert items[..i + 1][..i] == items[..i];
    DecodedMore(items, i);
    var hash := HexToBytes(KeyText(items[i]));
    AllOfMore(Decoded(items[..i]), hash);
    if hash.None? {
      DecodedAt(items, i);
      AllOfFails(Decoded(items), i);
    }
  }

  /** The restored counters agree with the restored list. */
  lemma {:induction false} DetailRestored(srd: seq<Item>)
    ensures Tallied(DetailOf(SrdTexts(srd)), srd)
  {
    if srd != [] {
      var n := |srd| - 1;
      DetailRestored(srd[..n]);
      var texts := SrdTexts(srd);
      assert texts[..n] == SrdTexts(srd[..n]);
      UuidOfText(srd[n]);
      TalliedAppend(DetailOf(texts[..n]), srd[..n], srd[n]);
      assert srd == srd[..n] + [srd[n]];
    }
  }

  // ----- The code -----

  lemma KeptMore(files: seq<JSON>, i: nat)
    requires i < |files|
    ensures Kept(files[..i + 1]) == if Pending(files[i]) then Kept(files[..i]) else Kept(files[..i]) + [files[i]]
  {
    assert files[..i + 1][..i] == files[..i];
  }

  lemma HashesMore(files: seq<JSON>, f: JSON)
    ensures Hashes(files + [f]) == Hashes(files) + HashOf(f)
  {
    assert (files + [f])[..|files|] == files;
  }

  /** The root over the files, in gen_workload_info and in get_upgrade_file_info. */
  method ComputeFileRoot(c: Crypto, files: seq<JSON>) returns (root: Hash)
    ensures root == FileRoot(c, files)
  {
    if |files| == 0 {
      return ZeroHash();
    }
    var buffer: Bytes := [];
    for i := 0 to |files|
      invariant buffer == Hashes(Kept(files[..i]))
    {
      KeptMore(files, i);
      if CharAt(Field(files[i], "status"), 0) == PENDING {
        continue;
      }
      HashesMore(Kept(files[..i]), files[i]);
      buffer := buffer + HashOf(files[i]);
    }
    assert files[..|files|] == files;
    root := c.sha(buffer);
  }

  /** The root over the srd list. */
  method ComputeSrdRoot(c: Crypto, srd: seq<Bytes>) returns (root: Hash)
    ensures root == SrdRoot(c, srd)
  {
    if |srd| == 0 {
      return ZeroHash();
    }
    var data: Bytes := [];
    for i := 0 to |srd|
      invariant data == Joined(srd[..i])
    {
      assert srd[..i + 1][..i] == srd[..i];
      data := data + srd[i];
    }
    assert srd[..|srd|] == srd;
    root := c.sha(data);
  }

  /** The part of the workload that is handed over. */
  class Workload {
    var srdHashs: seq<Bytes>
    var srdComplete: int
    var srdDetail: map<string, int>
    var sealedFiles: seq<JSON>

    constructor ()
      ensures srdHashs == [] && srdComplete == 0 && srdDetail == map[] && sealedFiles == []
    {
      srdHashs, srdComplete, srdDetail, sealedFiles := [], 0, map[], [];
    }

    /** restore_srd. */
    method RestoreSrd(json: JSON) returns (ok: bool)
      modifies this`srdHashs, this`srdComplete, this`srdDetail
      ensures ok <==> json.Array? && SrdFrom(json.items).Some?
      ensures ok && json.items != [] ==>
                Some(srdHashs) == SrdFrom(json.items) && srdComplete == |srdHashs| && srdDetail == DetailOf(json.items)
      ensures !json.Array? || json.items == [] ==>
                srdHashs == old(srdHashs) && srdComplete == old(srdComplete) && srdDetail == old(srdDetail)
      ensures json.Array? && !ok ==> srdHashs == [] && srdComplete == 0 && srdDetail == map[]
    {
      if !json.Array? {
        return false;
      }
      if |json.items| == 0 {
        return true;
      }
      srdHashs, srdComplete, srdDetail := [], 0, map[];
      for i := 0 to |json.items|
        invariant Some(srdHashs) == SrdFrom(json.items[..i])
        invariant srdDetail == DetailOf(json.items[..i])
      {
        OneMoreSrd(json.items, i, srdHashs);
        var hex := KeyText(json.items[i]);
        var hash := HexToBytes(hex);
        if hash.None? {
          srdHashs, srdComplete, srdDetail := [], 0, map[];
          return false;
        }
        srdHashs := srdHashs + [hash.value];
        var uuid := FirstChars(hex, 2 * UUID_LENGTH);
        srdDetail := srdDetail[uuid := Get(srdDetail, uuid) + 1];
      }
      assert json.items[..|json.items|] == json.items;
      srdComplete := |srdHashs|;
      ok := true;
    }

    /** restore_file. */
    method RestoreFile(json: JSON) returns (ok: bool)
      modifies this`sealedFiles
      ensures ok <==> json.Array?
      ensures sealedFiles == if json.Array? && json.items != [] then Kept(json.items) else old(sealedFiles)
    {
      if !json.Array? {
        return false;
      }
      if |json.items| == 0 {
        return true;
      }
      sealedFiles := [];
      for i := 0 to |json.items|
        invariant sealedFiles == Kept(json.items[..i])
      {
        KeptMore(json.items, i);
        if CharAt(Field(json.items[i], "status"), 0) != PENDING {
          sealedFiles := sealedFiles + [json.items[i]];
        }
      }
      assert json.items[..|json.items|] == json.items;
      ok := true;
    }
  }

  /** A fresh worker after restoring what another one exported: the same lists, and counters that agree with them. */
  method RestoreFresh(w: Worker) returns (other: Workload)
    ensures other.srdHashs == w.srd && other.sealedFiles == Kept(w.files)
    ensures other.srdComplete == |w.srd| && Tallied(other.srdDetail, w.srd)
  {
    other := new Workload();
    SrdRestored(w.srd);
    DetailRestored(w.srd);
    KeptTwice(w.files);
    var srdOk := other.RestoreSrd(Array(SrdTexts(w.srd)));
    var fileOk := other.RestoreFile(Array(Kept(w.files)));
  }
}
