/**
 The link parser of src/enclave/storage/Storage.cpp (get_hashs_from_block).

 A block in the serial format of DAG-PB is a run of Links fields, each
 `0x12 length body`, followed by a Data field. The body of a link begins with its
 Hash field, `0x0a length cid`, and a CID ends in the multihash `0x12 0x20 digest`.
 Lengths are base 128 varints. The code works on 32-bit signed integers; here the
 sums wrap explicitly, and a shift by more than 31 bits, which C++ leaves undefined,
 yields whatever the function `wide` says.
 */
module Links {
  import opened Basics

  type Int32 = x: int | -0x8000_0000 <= x < 0x8000_0000

  /** The conversion of a size to a 32-bit signed integer. */
  function Truncate(n: nat): Int32 {
    (n + 0x8000_0000) % 0x1_0000_0000 - 0x8000_0000
  }

  /** The sum of two 32-bit signed integers, wrapped around. */
  function Add(x: Int32, y: Int32): Int32 {
    if x + y >= 0x8000_0000 then x + y - 0x1_0000_0000
    else if x + y < -0x8000_0000 then x + y + 0x1_0000_0000
    else x + y
  }

  type Wide = (Int32, Byte, nat) -> Int32

  /** `k` shifted left by one of the first five multiples of 7. */
  function Shifted(k: int, shift: nat): int {
    if shift == 0 then k
    else if shift == 7 then k * 0x80
    else if shift == 14 then k * 0x4000
    else if shift == 21 then k * 0x20_0000
    else k * 0x1000_0000
  }

  /** What a partial length can be: below `shift` bits, as long as no bits have been lost. */
  predicate Partial(size: int, shift: nat) {
    shift % 7 == 0 && (shift <= 28 ==> 0 <= size < Shifted(1, shift))
  }

  /** `size |= int(b & 0x7F) << shift`: the new group lies above all bits of `size`, so it is added. */
  function Accumulate(wide: Wide, size: Int32, b: Byte, shift: nat): (r: Int32)
    requires Partial(size, shift)
    ensures Partial(r, shift + 7)
  {
    if shift <= 21 then size + Shifted(b % 128, shift)
    else if shift == 28 then Truncate(size + Shifted(b % 16, 28))
    else wide(size, b, shift)
  }

  /** A length and the index behind it. */
  datatype Sized = Sized(size: Int32, index: nat)

  /** The varint at `index`, or nothing if it runs past byte `n` or past 64 bits. */
  function ReadSize(wide: Wide, data: Bytes, n: nat, index: nat, shift: nat, size: Int32): (r: Option<Sized>)
    requires n <= |data| && index <= n
    requires Partial(size, shift)
    ensures r.Some? ==> index < r.value.index <= n
    decreases n - index
  {
    if shift >= 64 || index >= n then None
    else
      var size' := Accumulate(wide, size, data[index], shift);
      if data[index] < 0x80 then Some(Sized(size', index + 1))
      else ReadSize(wide, data, n, index + 1, shift + 7, size')
  }

  /** The digests of the links that start at `index`, behind those found so far. */
  function Scan(wide: Wide, data: Bytes, n: nat, index: nat, found: seq<Hash>): seq<Hash>
    requires n <= |data| && n < 0x8000_0000 && index <= n
    decreases n - index
  {
    if index >= n || data[index] != 0x12 then found
    else match LinkAt(wide, data, n, index)
         case Malformed => []
         case Foreign => found
         case Found(hash, next) => Scan(wide, data, n, next, found + [hash])
  }

  /** What stands behind a link header: a link, something without a leading hash field, or nonsense. */
  datatype Outcome = Malformed | Foreign | Found(hash: Hash, next: nat)

  function LinkAt(wide: Wide, data: Bytes, n: nat, index: nat): (r: Outcome)
    requires n <= |data| && n < 0x8000_0000 && index < n
    ensures r.Found? ==> index < r.next < n
  {
    match ReadSize(wide, data, n, index + 1, 0, 0)
    case None => Malformed
    case Some(link) =>
      var end := Add(link.index, link.size);
      if link.size < 0 || end < 0 || end >= n then Malformed
      else if data[link.index] != 0x0a then Foreign
      else match CidAt(wide, data, n, link.index + 1)
           case None => Malformed
           case Some(hash) => Found(hash, end)
  }

  /** The digest at the end of the length-prefixed CID at `index`. */
  function CidAt(wide: Wide, data: Bytes, n: nat, index: nat): (r: Option<Hash>)
    requires n <= |data| && n < 0x8000_0000 && index <= n
  {
    match ReadSize(wide, data, n, index, 0, 0)
    case None => None
    case Some(cid) =>
      var stop := Add(cid.index, cid.size);
      if cid.size < 0 || stop < 34 || stop >= n then None
      else if data[stop - 33] != 0x20 || data[stop - 34] != 0x12 then None
      else Some(data[stop - 32..stop])
  }

  /** The links of a block. A block of 2 GB or more has its size cut to 32 bits. */
  function LinkHashes(wide: Wide, data: Bytes): seq<Hash> {
    var n := Truncate(|data|);
    if n <= 0 then [] else Scan(wide, data, n, 0, [])
  }

  // ----- The loops -----

  method ReadVarint(wide: Wide, data: Bytes, n: nat, start: nat) returns (r: Option<Sized>)
    requires n <= |data| && start <= n
    ensures r == ReadSize(wide, data, n, start, 0, 0)
  {
    var index, size: Int32, shift := start, 0, 0;
    while true
      invariant start <= index <= n && shift <= 70 && Partial(size, shift)
      invariant ReadSize(wide, data, n, start, 0, 0) == ReadSize(wide, data, n, index, shift, size)
      decreases 70 - shift
    {
      if shift >= 64 {
        return None;
      }
      if index >= n {
        return None;
      }
      var b := data[index];
      index := index + 1;
      size := Accumulate(wide, size, b, shift);
      if b < 0x80 {
        return Some(Sized(size, index));
      }
      shift := shift + 7;
    }
  }

  /** The body of the loop over links: every read lies inside the block. */
  method ReadLink(wide: Wide, data: Bytes, n: nat, start: nat) returns (r: Outcome)
    requires n <= |data| && n < 0x8000_0000 && start < n
    ensures r == LinkAt(wide, data, n, start)
  {
    var link := ReadVarint(wide, data, n, start + 1);
    if link.None? {
      return Malformed;
    }
    var index, linkSize := link.value.index, link.value.size;
    if linkSize < 0 || Add(index, linkSize) < 0 || Add(index, linkSize) >= n {
      return Malformed;
    }
    var indexHeader := index;
    if data[index] != 0x0a {
      return Foreign;
    }
    var cid := ReadVarint(wide, data, n, index + 1);
    if cid.None? {
      return Malformed;
    }
    var hashSize := cid.value.size;
    index := cid.value.index;
    if hashSize < 0 || Add(index, hashSize) < 34 || Add(index, hashSize) >= n {
      return Malformed;
    }
    if data[index + hashSize - 33] != 0x20 || data[index + hashSize - 34] != 0x12 {
      return Malformed;
    }
    r := Found(data[index + hashSize - 32..index + hashSize], indexHeader + linkSize);
  }

  /** get_hashs_from_block: the index grows with every link, so the loop ends. */
  method GetHashsFromBlock(wide: Wide, data: Bytes) returns (hashes: seq<Hash>)
    ensures hashes == LinkHashes(wide, data)
  {
    hashes := [];
    if |data| == 0 {
      return;
    }
    var blockSize := Truncate(|data|);
    var index := 0;
    while index < blockSize
      invariant 0 <= index && (blockSize > 0 ==> index <= blockSize)
      invariant blockSize > 0 ==> LinkHashes(wide, data) == Scan(wide, data, blockSize, index, hashes)
      invariant blockSize <= 0 ==> hashes == []
      decreases blockSize - index
    {
      if data[index] != 0x12 {
        return;
      }
      var link := ReadLink(wide, data, blockSize, index);
      match link
      case Malformed =>
        return [];
      case Foreign =>
        return;
      case Found(hash, next) =>
        hashes := hashes + [hash];
        index := next;
    }
  }

  // ----- Blocks in the serial format -----

  /** A link: what precedes the multihash in its CID, the digest, and the fields behind the hash. */
  datatype Link = Link(prefix: Bytes, hash: Hash, tail: Bytes)

  function Varint(n: nat): (v: Bytes)
    ensures v != []
  {
    if n < 0x80 then [n] else [n % 0x80 + 0x80] + Varint(n / 0x80)
  }

  function CidField(l: Link): Bytes { l.prefix + [0x12, 0x20] + l.hash }

  function Body(l: Link): Bytes { [0x0a] + Varint(|CidField(l)|) + CidField(l) + l.tail }

  function EncodeLink(l: Link): Bytes { [0x12] + Varint(|Body(l)|) + Body(l) }

  function EncodeLinks(ls: seq<Link>): Bytes {
    if ls == [] then [] else EncodeLink(ls[0]) + EncodeLinks(ls[1..])
  }

  function HashesOf(ls: seq<Link>): (hs: seq<Hash>)
    ensures |hs| == |ls|
  {
    if ls == [] then [] else [ls[0].hash] + HashesOf(ls[1..])
  }

  ghost predicate SitsAt(data: Bytes, index: nat, part: Bytes) {
    index + |part| <= |data| && data[index..index + |part|] == part
  }

  lemma SitsAtParts(data: Bytes, index: nat, a: Bytes, b: Bytes)
    requires SitsAt(data, index, a + b)
    ensures SitsAt(data, index, a) && SitsAt(data, index + |a|, b)
  {
    var ab := data[index..index + |a + b|];
    assert data[index..index + |a|] == ab[..|a|];
    assert data[index + |a|..index + |a| + |b|] == ab[|a|..];
  }

  lemma SitsAtParts3(data: Bytes, index: nat, a: Bytes, b: Bytes, c: Bytes)
    requires SitsAt(data, index, a + b + c)
    ensures SitsAt(data, index, a) && SitsAt(data, index + |a|, b) && SitsAt(data, index + |a| + |b|, c)
  {
    SitsAtParts(data, index, a + b, c);
    SitsAtParts(data, index, a, b);
  }

  /** `total` is the length that results from the groups of `k` on top of the partial length `size`. */
  ghost predicate Completes(size: int, k: nat, shift: nat, total: int) {
    shift <= 28 && Partial(size, shift) && total == size + Shifted(k, shift) < 0x8000_0000
  }

  /** Reading a varint that ends inside the block adds its value at the current shift. */
  lemma {:induction false} ReadsVarint(
      wide: Wide, data: Bytes, index: nat, k: nat, shift: nat, size: Int32, total: Int32)
    requires SitsAt(data, index, Varint(k)) && Completes(size, k, shift, total)
    ensures ReadSize(wide, data, |data|, index, shift, size) == Some(Sized(total, index + |Varint(k)|))
    decreases k
  {
    if k < 0x80 {
      SitsAtIndex(data, index, [k], 0);
      ReadsLastGroup(wide, data, index, shift, size, total);
    } else {
      SitsAtParts(data, index, [k % 0x80 + 0x80], Varint(k / 0x80));
      SitsAtIndex(data, index, [k % 0x80 + 0x80], 0);
      var size' := ReadsGroup(wide, data, index, k, shift, size, total);
      ReadsVarint(wide, data, index + 1, k / 0x80, shift + 7, size', total);
    }
  }

  lemma {:induction false} ReadsLastGroup(wide: Wide, data: Bytes, index: nat, shift: nat, size: Int32, total: Int32)
    requires index < |data| && data[index] < 0x80 && Completes(size, data[index], shift, total)
    ensures ReadSize(wide, data, |data|, index, shift, size) == Some(Sized(total, index + 1))
  {
    LastGroup(wide, size, data[index], shift);
  }

  lemma LastGroup(wide: Wide, size: Int32, b: Byte, shift: nat)
    requires b < 0x80 && shift <= 28 && Partial(size, shift) && size + Shifted(b, shift) < 0x8000_0000
    ensures Accumulate(wide, size, b, shift) == size + Shifted(b, shift)
  {
    assert b % 128 == b;
    if shift > 21 {
      assert b < 8;
    }
  }

  lemma {:induction false} ReadsGroup(wide: Wide, data: Bytes, index: nat, k: nat, shift: nat, size: Int32, total: int)
    returns (size': Int32)
    requires index < |data| && k >= 0x80 && data[index] == k % 0x80 + 0x80 && Completes(size, k, shift, total)
    ensures Completes(size', k / 0x80, shift + 7, total)
    ensures ReadSize(wide, data, |data|, index, shift, size)
         == ReadSize(wide, data, |data|, index + 1, shift + 7, size')
  {
    NextGroup(size, k, shift);
    size' := size + Shifted(k % 0x80, shift);
  }

  lemma SitsAtIndex(data: Bytes, index: nat, part: Bytes, i: nat)
    requires SitsAt(data, index, part) && i < |part|
    ensures data[index + i] == part[i]
  {
    assert data[index + i] == data[index..index + |part|][i];
  }

  lemma NextGroup(size: int, k: nat, shift: nat)
    requires Partial(size, shift) && shift <= 28 && k >= 0x80 && size + Shifted(k, shift) < 0x8000_0000
    ensures shift <= 21 && Partial(size + Shifted(k % 0x80, shift), shift + 7)
    ensures size + Shifted(k % 0x80, shift) + Shifted(k / 0x80, shift + 7) == size + Shifted(k, shift)
  {
    assert k == k % 0x80 + (k / 0x80) * 0x80;
  }

  lemma {:induction false} ReadsCid(wide: Wide, data: Bytes, at: nat, l: Link)
    requires SitsAt(data, at, Varint(|CidField(l)|)) && |data| < 0x8000_0000
    requires SitsAt(data, at + |Varint(|CidField(l)|)|, CidField(l))
    requires at + |Varint(|CidField(l)|)| + |CidField(l)| < |data|
    ensures CidAt(wide, data, |data|, at) == Some(l.hash)
  {
    var cid := CidField(l);
    ReadsVarint(wide, data, at, |cid|, 0, 0, |cid|);
    var start := at + |Varint(|cid|)|;
    SitsAtParts3(data, start, l.prefix, [0x12, 0x20], l.hash);
    SitsAtIndex(data, start + |l.prefix|, [0x12, 0x20], 0);
    SitsAtIndex(data, start + |l.prefix|, [0x12, 0x20], 1);
  }

  /** The body of a link that does not end the block holds the digest. */
  lemma {:induction false} ReadsBody(wide: Wide, data: Bytes, at: nat, l: Link)
    requires SitsAt(data, at, Body(l)) && at + |Body(l)| < |data| < 0x8000_0000
    ensures data[at] == 0x0a && CidAt(wide, data, |data|, at + 1) == Some(l.hash)
  {
    var size, cid := Varint(|CidField(l)|), CidField(l);
    SitsAtParts(data, at, [0x0a] + size + cid, l.tail);
    SitsAtParts3(data, at, [0x0a], size, cid);
    SitsAtIndex(data, at, [0x0a], 0);
    ReadsCid(wide, data, at + 1, l);
  }

  lemma {:induction false} LinkAtEnds(wide: Wide, data: Bytes, index: nat, link: Sized)
    requires index < |data| < 0x8000_0000 && link.size >= 0 && link.index + link.size <= |data|
    requires ReadSize(wide, data, |data|, index + 1, 0, 0) == Some(link)
    ensures var end := link.index + link.size;
            && (end == |data| ==> LinkAt(wide, data, |data|, index) == Malformed)
            && (end < |data| && data[link.index] == 0x0a && CidAt(wide, data, |data|, link.index + 1).Some? ==>
                  LinkAt(wide, data, |data|, index) == Found(CidAt(wide, data, |data|, link.index + 1).value, end))
  {
  }

  lemma {:induction false} LinkStarts(wide: Wide, data: Bytes, index: nat, l: Link)
    requires SitsAt(data, index, EncodeLink(l)) && |data| < 0x8000_0000
    ensures data[index] == 0x12 && SitsAt(data, index + 1 + |Varint(|Body(l)|)|, Body(l))
    ensures |EncodeLink(l)| == 1 + |Varint(|Body(l)|)| + |Body(l)|
    ensures ReadSize(wide, data, |data|, index + 1, 0, 0)
         == Some(Sized(|Body(l)|, index + 1 + |Varint(|Body(l)|)|))
  {
    var size, body := Varint(|Body(l)|), Body(l);
    SitsAtParts3(data, index, [0x12], size, body);
    SitsAtIndex(data, index, [0x12], 0);
    ReadsVarint(wide, data, index + 1, |body|, 0, 0, |body|);
  }

  /** An encoded link is read as its digest if a byte follows it, and refused if it ends the block. */
  lemma {:induction false} ReadsLink(wide: Wide, data: Bytes, index: nat, l: Link)
    requires SitsAt(data, index, EncodeLink(l)) && |data| < 0x8000_0000
    ensures data[index] == 0x12
    ensures var end := index + |EncodeLink(l)|;
            LinkAt(wide, data, |data|, index) == if end < |data| then Found(l.hash, end) else Malformed
  {
    var n := |Body(l)|;
    var at := index + 1 + |Varint(n)|;
    LinkStarts(wide, data, index, l);
    if at + n < |data| {
      ReadsBody(wide, data, at, l);
    }
    LinkOutcome(wide, data, index, at, n, l.hash);
  }

  lemma {:induction false} LinkOutcome(wide: Wide, data: Bytes, index: nat, at: nat, n: Int32, hash: Hash)
    requires index < |data| < 0x8000_0000 && n >= 0 && at + n <= |data|
    requires ReadSize(wide, data, |data|, index + 1, 0, 0) == Some(Sized(n, at))
    requires at + n < |data| ==> data[at] == 0x0a && CidAt(wide, data, |data|, at + 1) == Some(hash)
    ensures LinkAt(wide, data, |data|, index) == if at + n < |data| then Found(hash, at + n) else Malformed
  {
    LinkAtEnds(wide, data, index, Sized(n, at));
  }

  lemma {:induction false} ScansLink(wide: Wide, data: Bytes, index: nat, l: Link, next: nat, found: seq<Hash>)
    requires SitsAt(data, index, EncodeLink(l)) && |data| < 0x8000_0000 && next == index + |EncodeLink(l)|
    ensures next < |data| ==> Scan(wide, data, |data|, index, found) == Scan(wide, data, |data|, next, found + [l.hash])
    ensures next == |data| ==> Scan(wide, data, |data|, index, found) == []
  {
    ReadsLink(wide, data, index, l);
    ScanStep(wide, data, index, found, if next < |data| then Found(l.hash, next) else Malformed);
  }

  lemma {:induction false} ScanStep(wide: Wide, data: Bytes, index: nat, found: seq<Hash>, out: Outcome)
    requires index < |data| < 0x8000_0000 && data[index] == 0x12 && LinkAt(wide, data, |data|, index) == out
    ensures out.Found? ==>
              Scan(wide, data, |data|, index, found) == Scan(wide, data, |data|, out.next, found + [out.hash])
    ensures out.Malformed? ==> Scan(wide, data, |data|, index, found) == []
    ensures out.Foreign? ==> Scan(wide, data, |data|, index, found) == found
  {
  }

  lemma FirstLink(data: Bytes, index: nat, ls: seq<Link>) returns (next: nat)
    requires ls != [] && SitsAt(data, index, EncodeLinks(ls))
    ensures next == index + |EncodeLink(ls[0])| && SitsAt(data, index, EncodeLink(ls[0]))
    ensures SitsAt(data, next, EncodeLinks(ls[1..])) && next + |EncodeLinks(ls[1..])| == index + |EncodeLinks(ls)|
  {
    next := index + |EncodeLink(ls[0])|;
    SitsAtParts(data, index, EncodeLink(ls[0]), EncodeLinks(ls[1..]));
  }

  lemma HashesCons(found: seq<Hash>, ls: seq<Link>)
    requires ls != []
    ensures found + [ls[0].hash] + HashesOf(ls[1..]) == found + HashesOf(ls)
  {
    assert HashesOf(ls) == [ls[0].hash] + HashesOf(ls[1..]);
  }

  lemma {:induction false} ScansAll(wide: Wide, data: Bytes, index: nat, ls: seq<Link>, found: seq<Hash>, end: nat)
    requires SitsAt(data, index, EncodeLinks(ls)) && |data| < 0x8000_0000
    requires end == index + |EncodeLinks(ls)| && end < |data|
    ensures Scan(wide, data, |data|, index, found) == Scan(wide, data, |data|, end, found + HashesOf(ls))
    decreases |ls|
  {
    if ls == [] {
      assert found + [] == found;
    } else {
      var next := FirstLink(data, index, ls);
      ScansLink(wide, data, index, ls[0], next, found);
      ScansAll(wide, data, next, ls[1..], found + [ls[0].hash], end);
      HashesCons(found, ls);
    }
  }

  lemma {:induction false} ScansNone(wide: Wide, data: Bytes, index: nat, ls: seq<Link>, found: seq<Hash>)
    requires SitsAt(data, index, EncodeLinks(ls)) && |data| < 0x8000_0000
    requires ls != [] && index + |EncodeLinks(ls)| == |data|
    ensures Scan(wide, data, |data|, index, found) == []
    decreases |ls|
  {
    var next := FirstLink(data, index, ls);
    ScansLink(wide, data, index, ls[0], next, found);
    if next < |data| {
      ScansNone(wide, data, next, ls[1..], found + [ls[0].hash]);
    }
  }

  lemma TruncateSmall(n: nat)
    requires n < 0x8000_0000
    ensures Truncate(n) == n
  {
  }

  lemma ParsesBlock(wide: Wide, data: Bytes, ls: seq<Link>)
    requires SitsAt(data, 0, EncodeLinks(ls)) && |data| < 0x8000_0000
    requires var end := |EncodeLinks(ls)|; end < |data| ==> data[end] != 0x12
    ensures LinkHashes(wide, data) == if |EncodeLinks(ls)| < |data| then HashesOf(ls) else []
  {
    TruncateSmall(|data|);
    if |EncodeLinks(ls)| < |data| {
      ScansAll(wide, data, 0, ls, [], |EncodeLinks(ls)|);
      assert [] + HashesOf(ls) == HashesOf(ls);
    } else if ls != [] {
      ScansNone(wide, data, 0, ls, []);
    }
  }

  /**
   For a block of links followed by a part that is no link, the parser returns
   exactly the digests of the links, in order, if and only if that part is not empty
   (or there are no links). When the last link ends the block, the end of the link
   fails the bounds test and all links are dropped.
   */
  lemma LinksRecoveredIffDataFollows(wide: Wide, ls: seq<Link>, rest: Bytes)
    requires |EncodeLinks(ls) + rest| < 0x8000_0000
    requires rest != [] ==> rest[0] != 0x12
    ensures LinkHashes(wide, EncodeLinks(ls) + rest) == HashesOf(ls) <==> ls == [] || rest != []
    ensures rest == [] ==> LinkHashes(wide, EncodeLinks(ls) + rest) == []
  {
    var links, hashes := EncodeLinks(ls), HashesOf(ls);
    var data := links + rest;
    assert rest != [] ==> data[|links|] == rest[0];
    ParsesBlock(wide, data, ls);
    assert |hashes| == |ls|;
  }

  // ----- Fields that are no proper links -----

  /** The links, and then a field with a header for `n` bytes. */
  function WithField(ls: seq<Link>, n: nat, rest: Bytes): Bytes {
    EncodeLinks(ls) + ([0x12] + Varint(n) + rest)
  }

  lemma {:induction false} FieldRead(wide: Wide, ls: seq<Link>, n: nat, rest: Bytes, data: Bytes)
    requires data == WithField(ls, n, rest) && |data| < 0x8000_0000 && n < 0x8000_0000
    ensures var start, at := |EncodeLinks(ls)|, |data| - |rest|;
            && start < at && data[start] == 0x12 && SitsAt(data, 0, EncodeLinks(ls)) && SitsAt(data, at, rest)
            && ReadSize(wide, data, |data|, start + 1, 0, 0) == Some(Sized(n, at))
  {
    var start := |EncodeLinks(ls)|;
    FieldSits(ls, n, rest, data);
    SitsAtIndex(data, start, [0x12], 0);
    ReadsVarint(wide, data, start + 1, n, 0, 0, n);
  }

  /** What becomes of the block is decided by that field. */
  lemma {:induction false} FieldDecides(wide: Wide, ls: seq<Link>, data: Bytes, start: nat, out: Outcome)
    requires |data| < 0x8000_0000 && SitsAt(data, 0, EncodeLinks(ls)) && start == |EncodeLinks(ls)|
    requires start < |data| && data[start] == 0x12 && LinkAt(wide, data, |data|, start) == out && !out.Found?
    ensures LinkHashes(wide, data) == if out.Malformed? then [] else HashesOf(ls)
  {
    TruncateSmall(|data|);
    ScansAll(wide, data, 0, ls, [], start);
    assert [] + HashesOf(ls) == HashesOf(ls);
    ScanStep(wide, data, start, HashesOf(ls), out);
  }

  lemma FieldSits(ls: seq<Link>, n: nat, rest: Bytes, data: Bytes)
    requires data == WithField(ls, n, rest)
    ensures SitsAt(data, 0, EncodeLinks(ls)) && SitsAt(data, |EncodeLinks(ls)|, [0x12])
    ensures SitsAt(data, |EncodeLinks(ls)| + 1, Varint(n)) && SitsAt(data, |data| - |rest|, rest)
    ensures |data| == |EncodeLinks(ls)| + 1 + |Varint(n)| + |rest|
  {
    var field := [0x12] + Varint(n) + rest;
    assert data[0..|data|] == data;
    SitsAtParts(data, 0, EncodeLinks(ls), field);
    SitsAtParts3(data, |EncodeLinks(ls)|, [0x12], Varint(n), rest);
  }

  lemma {:induction false} LinkAtIs(wide: Wide, data: Bytes, start: nat, at: nat, n: Int32)
    requires start < |data| < 0x8000_0000 && 0 <= n && at <= |data|
    requires ReadSize(wide, data, |data|, start + 1, 0, 0) == Some(Sized(n, at))
    ensures at + n >= |data| ==> LinkAt(wide, data, |data|, start) == Malformed
    ensures at + n < |data| && data[at] != 0x0a ==> LinkAt(wide, data, |data|, start) == Foreign
    ensures at + n < |data| && data[at] == 0x0a && CidAt(wide, data, |data|, at + 1) == None ==>
              LinkAt(wide, data, |data|, start) == Malformed
  {
  }

  /** A field that does not end before the block does drops all links, those before it too. */
  lemma {:induction false} CutFieldDropsAll(wide: Wide, ls: seq<Link>, n: nat, rest: Bytes)
    requires |WithField(ls, n, rest)| < 0x8000_0000 && n < 0x8000_0000 && |rest| <= n
    ensures LinkHashes(wide, WithField(ls, n, rest)) == []
  {
    var data := WithField(ls, n, rest);
    var start, at := |EncodeLinks(ls)|, |data| - |rest|;
    FieldRead(wide, ls, n, rest, data);
    LinkAtIs(wide, data, start, at, n);
    FieldDecides(wide, ls, data, start, Malformed);
  }

  /** A field that ends in time and does not begin with a hash field ends the links, and those before it are kept. */
  lemma {:induction false} ForeignFieldEndsLinks(wide: Wide, ls: seq<Link>, n: nat, rest: Bytes)
    requires |WithField(ls, n, rest)| < 0x8000_0000 && n < |rest| && rest[0] != 0x0a
    ensures LinkHashes(wide, WithField(ls, n, rest)) == HashesOf(ls)
  {
    var data := WithField(ls, n, rest);
    var start, at := |EncodeLinks(ls)|, |data| - |rest|;
    FieldRead(wide, ls, n, rest, data);
    SitsAtIndex(data, at, rest, 0);
    LinkAtIs(wide, data, start, at, n);
    FieldDecides(wide, ls, data, start, Foreign);
  }

  /** The hash field with this CID, and more behind it. */
  function HashField(cid: Bytes, more: Bytes): Bytes { [0x0a] + Varint(|cid|) + (cid + more) }

  /** A hash field that does not end in a SHA-256 multihash drops all links. */
  lemma {:induction false} BadHashDropsAll(wide: Wide, ls: seq<Link>, n: nat, cid: Bytes, more: Bytes)
    requires |WithField(ls, n, HashField(cid, more))| < 0x8000_0000 && n < |HashField(cid, more)|
    requires |cid| >= 34 && cid[|cid| - 34..|cid| - 32] != [0x12, 0x20] && more != []
    ensures LinkHashes(wide, WithField(ls, n, HashField(cid, more))) == []
  {
    var rest := HashField(cid, more);
    var data := WithField(ls, n, rest);
    var start, at := |EncodeLinks(ls)|, |data| - |rest|;
    FieldRead(wide, ls, n, rest, data);
    BadLink(wide, data, start, at, n, cid, more);
    FieldDecides(wide, ls, data, start, Malformed);
  }

  lemma {:induction false} BadLink(
      wide: Wide, data: Bytes, start: nat, at: nat, n: Int32, cid: Bytes, more: Bytes)
    requires start < |data| < 0x8000_0000 && 0 <= n && at + n < |data| && SitsAt(data, at, HashField(cid, more))
    requires ReadSize(wide, data, |data|, start + 1, 0, 0) == Some(Sized(n, at))
    requires |cid| >= 34 && cid[|cid| - 34..|cid| - 32] != [0x12, 0x20] && more != []
    ensures LinkAt(wide, data, |data|, start) == Malformed
  {
    BadCid(wide, data, at, cid, more);
    LinkAtIs(wide, data, start, at, n);
  }

  lemma {:induction false} BadCid(wide: Wide, data: Bytes, at: nat, cid: Bytes, more: Bytes)
    requires |data| < 0x8000_0000 && SitsAt(data, at, HashField(cid, more))
    requires |cid| >= 34 && cid[|cid| - 34..|cid| - 32] != [0x12, 0x20] && more != []
    ensures at < |data| && data[at] == 0x0a && CidAt(wide, data, |data|, at + 1) == None
  {
    HashFieldSits(data, at, cid, more);
    SitsAtIndex(data, at, [0x0a], 0);
    ReadsVarint(wide, data, at + 1, |cid|, 0, 0, |cid|);
    NoMultihash(wide, data, at + 1, cid, at + 1 + |Varint(|cid|)|);
  }

  lemma HashFieldSits(data: Bytes, at: nat, cid: Bytes, more: Bytes)
    requires SitsAt(data, at, [0x0a] + Varint(|cid|) + (cid + more))
    ensures SitsAt(data, at, [0x0a]) && SitsAt(data, at + 1, Varint(|cid|))
    ensures SitsAt(data, at + 1 + |Varint(|cid|)|, cid) && at + 1 + |Varint(|cid|)| + |cid| + |more| <= |data|
  {
    SitsAtParts3(data, at, [0x0a], Varint(|cid|), cid + more);
    SitsAtParts(data, at + 1 + |Varint(|cid|)|, cid, more);
  }

  lemma NoMultihash(wide: Wide, data: Bytes, index: nat, cid: Bytes, start: nat)
    requires |data| < 0x8000_0000 && index <= |data| && SitsAt(data, start, cid) && start + |cid| < |data|
    requires ReadSize(wide, data, |data|, index, 0, 0) == Some(Sized(|cid|, start))
    requires |cid| >= 34 && cid[|cid| - 34..|cid| - 32] != [0x12, 0x20]
    ensures CidAt(wide, data, |data|, index) == None
  {
    SitsAtIndex(data, start, cid, |cid| - 34);
    SitsAtIndex(data, start, cid, |cid| - 33);
    assert cid[|cid| - 34..|cid| - 32] == [cid[|cid| - 34], cid[|cid| - 33]];
  }
}
