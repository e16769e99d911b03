/**
 Base58 text and content identifiers (src/enclave/utils/EUtils.cpp).

 The encoder keeps a buffer of base-58 digits, most significant first, and folds in
 one input byte at a time: every digit is multiplied by 256 and the carry travels
 towards the front. `Numeral` is the reference: the digits of the input read as one
 big-endian number, without leading zeros.
 */
module Base58 {
  import opened Basics

  /** 1 + floor(1.3656... * 34), the buffer of a 34-byte multihash. */
  const CID_BUFFER := 47

  type Digit = d: int | 0 <= d < 58

  /** The alphabet 1-9, A-H, J-N, P-Z, a-k, m-z. */
  function Letter(d: Digit): char {
    if d < 9 then '1' + d as char
    else if d < 17 then 'A' + (d - 9) as char
    else if d < 22 then 'J' + (d - 17) as char
    else if d < 33 then 'P' + (d - 22) as char
    else if d < 44 then 'a' + (d - 33) as char
    else 'm' + (d - 44) as char
  }

  function Numeral(n: nat): (ds: seq<Digit>) {
    if n == 0 then [] else Numeral(n / 58) + [n % 58]
  }

  function Letters(ds: seq<Digit>): string {
    seq(|ds|, i requires 0 <= i < |ds| => Letter(ds[i]))
  }

  /** The Base58 text of a byte string, as the number it denotes determines it. */
  function Text(input: Bytes): string {
    NumBounds(256, input);
    Letters(Numeral(Num(256, input)))
  }

  /** The identifier of a block: the multihash prefix 0x12 0x20, then the SHA-256 digest. */
  function Multihash(hash: Hash): Bytes { [0x12, 0x20] + hash }

  function Cid(hash: Hash): string { Text(Multihash(hash)) }

  // ----- Numerals -----

  lemma {:induction false} NumeralDenotes(n: nat)
    ensures Num(58, Numeral(n)) == n
  {
    if n != 0 {
      NumeralDenotes(n / 58);
      assert Numeral(n)[..|Numeral(n)| - 1] == Numeral(n / 58);
    }
  }

  /** A numeral without a leading zero is the numeral of the number it denotes. */
  lemma {:induction false} NumeralIsCanonical(ds: seq<Digit>)
    requires ds != [] ==> ds[0] != 0
    ensures Num(58, ds) >= 0 && ds == Numeral(Num(58, ds))
  {
    NumBounds(58, ds);
    if ds != [] {
      var n := |ds| - 1;
      NumeralIsCanonical(ds[..n]);
      assert ds == ds[..n] + [ds[n]];
      NumBounds(58, ds[..n]);
      var q := Num(58, ds[..n]);
      assert (q * 58 + ds[n]) / 58 == q && (q * 58 + ds[n]) % 58 == ds[n];
      if n > 0 {
        assert ds[..n][0] == ds[0];
        assert q != 0;
      }
    }
  }

  /** The leading digits of `n` are the numeral of `n` with the low `k` digits cut off. */
  lemma {:induction false} NumeralPrefix(n: nat, m: nat, k: nat)
    requires m > 0 && m * Pow(58, k) <= n < (m + 1) * Pow(58, k)
    ensures |Numeral(n)| == |Numeral(m)| + k
    ensures Numeral(n)[..|Numeral(m)|] == Numeral(m)
    decreases k
  {
    if k == 0 {
      assert n == m;
      assert Numeral(n)[..|Numeral(m)|] == Numeral(m);
    } else {
      var p := Pow(58, k - 1);
      assert m * Pow(58, k) == (m * p) * 58;
      assert (m + 1) * Pow(58, k) == ((m + 1) * p) * 58;
      assert m * p > 0;
      NumeralPrefix(n / 58, m, k - 1);
      assert Numeral(n) == Numeral(n / 58) + [n % 58];
    }
  }

  lemma LettersInjective(a: seq<Digit>, b: seq<Digit>)
    requires Letters(a) == Letters(b)
    ensures a == b
  {
    assert |a| == |Letters(a)| == |Letters(b)| == |b|;
    forall i | 0 <= i < |a|
      ensures a[i] == b[i]
    {
      assert Letter(a[i]) == Letters(a)[i] == Letters(b)[i] == Letter(b[i]);
    }
  }

  // ----- The letters, and reading a text -----

  /** The alphabet, spelled out. */
  const ALPHABET := "123456789" + "ABCDEFGH" + "JKLMN" + "PQRSTUVWXYZ" + "abcdefghijk" + "mnopqrstuvwxyz"

  predicate Alphanumeric(c: char) {
    '0' <= c <= '9' || 'A' <= c <= 'Z' || 'a' <= c <= 'z'
  }

  /** The letters are the alphanumeric characters but for the four that look alike, in ascending order. */
  lemma LettersAre()
    ensures forall c :: (exists d: Digit :: Letter(d) == c) <==> Alphanumeric(c) && c !in "0OIl"
    ensures forall d: Digit, e: Digit :: d < e ==> Letter(d) < Letter(e)
  {
    forall c | Alphanumeric(c) && c !in "0OIl"
      ensures exists d: Digit :: Letter(d) == c
    {
      var at := Rank(c);
      assert Letter(at) == c;
    }
  }

  /** How many letters come before this one. */
  function Rank(c: char): Digit
    requires Alphanumeric(c) && c !in "0OIl"
  {
    if c <= '9' then (c - '1') as int
    else if c <= 'H' then 9 + (c - 'A') as int
    else if c <= 'N' then 17 + (c - 'J') as int
    else if c <= 'Z' then 22 + (c - 'P') as int
    else if c <= 'k' then 33 + (c - 'a') as int
    else 44 + (c - 'm') as int
  }

  lemma LetterIsInAlphabet(d: Digit)
    ensures |ALPHABET| == 58 && ALPHABET[d] == Letter(d)
  {
  }

  /** The first place of a character in a text, or the length of the text if it is not there. */
  function Find(s: string, c: char): nat {
    if s == [] || s[0] == c then 0 else 1 + Find(s[1..], c)
  }

  lemma {:induction false} FindIs(s: string, c: char, i: nat)
    requires i <= |s| && (i < |s| ==> s[i] == c) && forall j :: 0 <= j < i ==> s[j] != c
    ensures Find(s, c) == i
  {
    if i > 0 {
      FindIs(s[1..], c, i - 1);
    }
  }

  /** Reads a text as a number in base 58; a character outside the alphabet makes it unreadable. */
  function Decode(text: string): Option<nat> {
    if text == [] then Some(0)
    else
      var front, d := Decode(text[..|text| - 1]), Find(ALPHABET, text[|text| - 1]);
      if front.None? || d == |ALPHABET| then None else Some(front.value * 58 + d)
  }

  lemma LetterFound(d: Digit)
    ensures Find(ALPHABET, Letter(d)) == d && |ALPHABET| == 58
  {
    LettersAre();
    LetterIsInAlphabet(d);
    forall e: Digit | e < d
      ensures ALPHABET[e] != Letter(d)
    {
      LetterIsInAlphabet(e);
    }
    FindIs(ALPHABET, Letter(d), d);
  }

  lemma {:induction false} FindWithin(s: string, c: char)
    ensures Find(s, c) <= |s| && (Find(s, c) < |s| ==> s[Find(s, c)] == c)
  {
    if s != [] && s[0] != c {
      FindWithin(s[1..], c);
    }
  }

  lemma {:induction false} LettersDecode(ds: seq<Digit>)
    ensures Num(58, ds) >= 0 && Decode(Letters(ds)) == Some(Num(58, ds))
  {
    if ds != [] {
      var n := |ds| - 1;
      LettersDecode(ds[..n]);
      assert Letters(ds)[..n] == Letters(ds[..n]);
      LetterFound(ds[n]);
    }
  }

  /** What decodes is spelled with letters. */
  lemma {:induction false} DecodedIsSpelled(text: string) returns (ds: seq<Digit>)
    requires Decode(text).Some?
    ensures Letters(ds) == text
  {
    if text == [] {
      ds := [];
    } else {
      var n := |text| - 1;
      var front := DecodedIsSpelled(text[..n]);
      FindWithin(ALPHABET, text[n]);
      LetterIsInAlphabet(0);
      var d := Find(ALPHABET, text[n]);
      LetterIsInAlphabet(d);
      ds := front + [d];
      assert Letters(ds)[..n] == Letters(front);
      assert text == text[..n] + [text[n]];
    }
  }

  /** The text of a byte string decodes to the number of the bytes, and no other text without leading '1' does. */
  lemma TextDecodes(input: Bytes, text: string)
    ensures Num(256, input) >= 0
    ensures text == Text(input)
       <==> Decode(text) == Some(Num(256, input)) && (text != "" ==> text[0] != '1')
  {
    NumBounds(256, input);
    NumeralDecodes(Num(256, input), text);
  }

  lemma NumeralDecodes(n: nat, text: string)
    ensures text == Letters(Numeral(n)) <==> Decode(text) == Some(n) && (text != "" ==> text[0] != '1')
  {
    NumeralDenotes(n);
    LettersDecode(Numeral(n));
    NumeralLeads(n);
    if Decode(text) == Some(n) && (text != "" ==> text[0] != '1') {
      var ds := DecodedIsSpelled(text);
      LettersDecode(ds);
      if ds != [] {
        assert text[0] == Letter(ds[0]);
      }
      NumeralIsCanonical(ds);
    }
  }

  lemma {:induction false} NumeralLeads(n: nat)
    ensures Numeral(n) != [] ==> Numeral(n)[0] != 0
  {
    if n >= 58 {
      NumeralLeads(n / 58);
    }
  }

  /** Hence what hash_to_cid gives is the one text that decodes to the multihash. */
  lemma CidDecodes(hash: Hash)
    ensures Num(256, Multihash(hash)) >= 0 && Decode(Cid(hash)) == Some(Num(256, Multihash(hash)))
  {
    TextDecodes(Multihash(hash), Cid(hash));
  }

  // ----- The identifier of a block -----

  lemma PowersOf58()
    ensures Pow(58, 44) == 389790918707373377135528568990913592653094657612049369038476873218241589149696
  {
    assert Pow(58, 3) == 195112 by {
      assert Pow(58, 1) == 58;
      assert Pow(58, 2) == 3364;
    }
    PowAdd(58, 3, 3);
    PowAdd(58, 6, 5) by { PowAdd(58, 3, 2); }
    PowAdd(58, 11, 11);
    PowAdd(58, 22, 22);
  }

  lemma PowersOf256()
    ensures Pow(256, 32) == 0x1_00000000_00000000_00000000_00000000_00000000_00000000_00000000_00000000
  {
    assert Pow(256, 4) == 0x1_00000000 by {
      assert Pow(256, 1) == 256;
      assert Pow(256, 2) == 0x1_0000;
      PowAdd(256, 2, 2);
    }
    PowAdd(256, 4, 4);
    PowAdd(256, 8, 8);
    PowAdd(256, 16, 16);
  }

  /** A multihash lies between 4640 and 4641 times 256^32, which is between 1378 and 1379 times 58^44. */
  lemma MultihashRange(hash: Hash)
    ensures 1378 * Pow(58, 44) <= Num(256, Multihash(hash)) < 1379 * Pow(58, 44)
  {
    NumAppend(256, [0x12, 0x20], hash);
    NumBounds(256, hash);
    NumFront(256, 0x12, [0x20]);
    NumFront(256, 0x20, []);
    assert [0x12] + [0x20] == [0x12, 0x20] && [0x20] + [] == [0x20];
    assert Num(256, [0x12, 0x20]) == 4640;
    PowersOf58();
    PowersOf256();
  }

  /** Every identifier has 46 characters and begins with "Qm". */
  lemma CidShape(hash: Hash)
    ensures |Cid(hash)| == 46 && Cid(hash)[..2] == "Qm"
  {
    MultihashRange(hash);
    var n := Num(256, Multihash(hash));
    NumeralPrefix(n, 1378, 44);
    Numeral1378();
    assert Numeral(n)[0] == Numeral(n)[..2][0] == 23;
    assert Numeral(n)[1] == Numeral(n)[..2][1] == 44;
  }

  lemma Numeral1378()
    ensures Numeral(1378) == [23, 44]
  {
    assert Numeral(23) == Numeral(0) + [23];
    assert Numeral(1378) == Numeral(23) + [44];
  }

  /** Different digests have different identifiers. */
  lemma CidInjective(a: Hash, b: Hash)
    requires Cid(a) == Cid(b)
    ensures a == b
  {
    var m, n := Multihash(a), Multihash(b);
    NumBounds(256, m);
    NumBounds(256, n);
    LettersInjective(Numeral(Num(256, m)), Numeral(Num(256, n)));
    NumeralDenotes(Num(256, m));
    NumeralDenotes(Num(256, n));
    NumInjective(256, m, n);
    assert a == m[2..] && b == n[2..];
  }

  // ----- The digit buffer -----

  /** The buffer denotes `n`, and only its last `length` digits can be non-zero. */
  ghost predicate Holds(digits: seq<Digit>, length: int, n: int) {
    && 0 <= length <= |digits|
    && (forall i :: 0 <= i < |digits| - length ==> digits[i] == 0)
    && Num(58, digits) == n
  }

  /** The last `i` digits of `was`, times 256 and plus `byte`, are now the last `i` digits of `now` and the carry. */
  ghost predicate Carrying(was: seq<Digit>, now: seq<Digit>, i: int, carry: nat, byte: Byte) {
    && |was| == |now| && 0 <= i <= |was|
    && now[..|was| - i] == was[..|was| - i]
    && Num(58, now[|was| - i..]) + carry * Pow(58, i) == 256 * Num(58, was[|was| - i..]) + byte
  }

  /** One digit of the carry loop: the digit and the carry together keep the value. */
  lemma CarryStep(was: seq<Digit>, now: seq<Digit>, i: nat, carry: nat, byte: Byte)
    requires Carrying(was, now, i, carry, byte) && i < |was|
    ensures now[|was| - 1 - i] == was[|was| - 1 - i]
    ensures var at := |was| - 1 - i;
            var t := carry + 256 * now[at] as int;
            Carrying(was, now[at := t % 58], i + 1, t / 58, byte)
  {
    var size := |was|;
    var at := size - 1 - i;
    assert now[at] == now[..size - i][at] == was[..size - i][at] == was[at];
    var now' := now[at := (carry + 256 * now[at] as int) % 58];
    assert now'[..at] == now[..size - i][..at] == was[..size - i][..at] == was[..at];
    assert now'[at..] == [now'[at]] + now[size - i..];
    assert was[at..] == [was[at]] + was[size - i..];
    NumFront(58, now'[at], now[size - i..]);
    NumFront(58, was[at], was[size - i..]);
    CarryArithmetic(Pow(58, i), carry, was[at], Num(58, now[size - i..]), Num(58, was[size - i..]), byte);
  }

  lemma CarryArithmetic(p: nat, carry: nat, d: nat, low: int, was: int, byte: int)
    requires low + carry * p == 256 * was + byte
    ensures var t := carry + 256 * d;
            (t % 58) * p + low + (t / 58) * (58 * p) == 256 * (d * p + was) + byte
  {
    var t := carry + 256 * d;
    var q, r := t / 58, t % 58;
    assert r * p + q * (58 * p) == (r + 58 * q) * p == t * p;
    assert t * p == carry * p + 256 * (d * p);
  }

  /** Leading zeros do not count. */
  lemma LeadingZeros(digits: seq<int>, k: nat)
    requires k <= |digits| && forall i :: 0 <= i < k ==> digits[i] == 0
    ensures Num(58, digits) == Num(58, digits[k..])
  {
    NumOfZeros(58, digits[..k]);
    NumAppend(58, digits[..k], digits[k..]);
    assert digits == digits[..k] + digits[k..];
    assert 0 * Pow(58, |digits[k..]|) == 0;
  }

  /** Folds one input byte into the buffer; what remains as carry did not fit. */
  method FoldByte(b58: array<Digit>, length: nat, byte: Byte) returns (length': nat, carry: nat)
    requires Holds(b58[..], length, Num(58, b58[..]))
    modifies b58
    ensures carry == 0 ==> Holds(b58[..], length', old(Num(58, b58[..])) * 256 + byte)
    ensures carry == 0 <==> old(Num(58, b58[..])) * 256 + byte < Pow(58, b58.Length)
  {
    ghost var was := b58[..];
    var size := b58.Length;
    carry := byte;
    var i := 0;
    var it := size - 1;
    ghost var now := was;
    assert was[size..] == [];
    while (carry != 0 || i < length) && it != -1
      invariant 0 <= i <= size && it == size - 1 - i
      invariant b58[..] == now && Carrying(was, now, i, carry, byte)
    {
      CarryStep(was, now, i, carry, byte);
      carry := carry + 256 * b58[it] as int;
      b58[it] := carry % 58;
      now := now[it := carry % 58];
      carry := carry / 58;
      i := i + 1;
      it := it - 1;
    }
    length' := i;
    if carry == 0 {
      FoldFits(was, now, length, i, byte);
    } else {
      FoldOverflows(was, now, carry, byte);
    }
  }

  lemma FoldFits(was: seq<Digit>, now: seq<Digit>, length: nat, i: nat, byte: Byte)
    requires Carrying(was, now, i, 0, byte) && length <= i
    requires Holds(was, length, Num(58, was))
    ensures Holds(now, i, Num(58, was) * 256 + byte)
    ensures Num(58, was) * 256 + byte < Pow(58, |was|)
  {
    var front := |was| - i;
    FrontStaysZero(was, now, front);
    SameValue(was, now, front, byte);
    NumBounds(58, now);
  }

  lemma SameValue(was: seq<Digit>, now: seq<Digit>, front: nat, byte: Byte)
    requires front <= |was| == |now| && Carrying(was, now, |was| - front, 0, byte)
    requires forall k :: 0 <= k < front ==> was[k] == 0 && now[k] == 0
    ensures Num(58, now) == Num(58, was) * 256 + byte
  {
    LeadingZeros(was, front);
    LeadingZeros(now, front);
  }

  lemma FrontStaysZero(was: seq<Digit>, now: seq<Digit>, front: nat)
    requires front <= |was| == |now| && now[..front] == was[..front]
    requires forall k :: 0 <= k < front ==> was[k] == 0
    ensures forall k :: 0 <= k < front ==> now[k] == 0
  {
    assert forall k :: 0 <= k < front ==> now[k] == now[..front][k] == was[..front][k];
  }

  lemma FoldOverflows(was: seq<Digit>, now: seq<Digit>, carry: nat, byte: Byte)
    requires Carrying(was, now, |was|, carry, byte) && carry > 0
    ensures Num(58, was) * 256 + byte >= Pow(58, |was|)
  {
    assert was[0..] == was && now[0..] == now;
    NumBounds(58, now);
    AtLeastOnce(carry, Pow(58, |was|));
  }

  lemma AtLeastOnce(c: nat, p: nat)
    requires c > 0
    ensures c * p >= p
  {
  }

  /** Drops the leading zeros and spells out the rest. */
  method Spell(b58: array<Digit>, length: nat) returns (res: string)
    requires Holds(b58[..], length, Num(58, b58[..]))
    ensures Num(58, b58[..]) >= 0 && res == Letters(Numeral(Num(58, b58[..])))
  {
    var size := b58.Length;
    var it := size - length;
    while it != size && b58[it] == 0
      invariant size - length <= it <= size
      invariant forall i :: 0 <= i < it ==> b58[i] == 0
    {
      it := it + 1;
    }
    res := "";
    for k := it to size
      invariant res == Letters(b58[it..k])
    {
      assert b58[it..k + 1] == b58[it..k] + [b58[k]];
      res := res + [Letter(b58[k])];
    }
    ZerosDropped(b58[..], it);
    assert b58[..][it..] == b58[it..size];
  }

  lemma ZerosDropped(digits: seq<Digit>, it: nat)
    requires it <= |digits| && forall i :: 0 <= i < it ==> digits[i] == 0
    requires it < |digits| ==> digits[it] != 0
    ensures Num(58, digits) >= 0 && digits[it..] == Numeral(Num(58, digits))
  {
    LeadingZeros(digits, it);
    NumeralIsCanonical(digits[it..]);
  }

  lemma {:induction false} PrefixNumGrows(input: Bytes, k: nat)
    requires k <= |input|
    ensures 0 <= Num(256, input[..k]) <= Num(256, input)
    decreases |input|
  {
    NumBounds(256, input[..k]);
    if k == |input| {
      assert input[..k] == input;
    } else {
      var front := input[..|input| - 1];
      PrefixNumGrows(front, k);
      assert front[..k] == input[..k];
    }
  }

  /**
   base58_encode with a buffer of `size` digits: the Base58 text of the input, or
   nothing exactly when its number needs more than `size` digits.
   */
  method Encode(input: Bytes, size: nat) returns (res: Option<string>)
    ensures Num(256, input) < Pow(58, size) ==> res == Some(Text(input))
    ensures Num(256, input) >= Pow(58, size) ==> res == None
  {
    if |input| == 0 {
      assert Letters(Numeral(0)) == "";
      return Some("");
    }
    var b58 := new Digit[size](_ => 0);
    var length, p := 0, 0;
    NumOfZeros(58, b58[..]);
    while p != |input|
      invariant 0 <= p <= |input|
      invariant Holds(b58[..], length, Num(256, input[..p]))
    {
      var carry;
      length, carry := FoldByte(b58, length, input[p]);
      assert input[..p + 1][..p] == input[..p];
      if carry != 0 {
        PrefixNumGrows(input, p + 1);
        return None;
      }
      p := p + 1;
    }
    assert input[..p] == input;
    NumBounds(58, b58[..]);
    var text := Spell(b58, length);
    res := Some(text);
  }

  /** hash_to_cid: the multihash is never stored, its two prefix bytes are read off the position. */
  method HashToCid(hash: Hash) returns (res: Option<string>)
    ensures res == Some(Cid(hash))
  {
    ghost var input := Multihash(hash);
    var pend := 34;
    var b58 := new Digit[CID_BUFFER](_ => 0);
    var length, p := 0, 0;
    NumOfZeros(58, b58[..]);
    while p != pend
      invariant 0 <= p <= pend
      invariant Holds(b58[..], length, Num(256, input[..p]))
    {
      var byte := if p == 0 then 18 else if p == 1 then 32 else hash[p - 2];
      CidPrefixFits(hash, p, byte);
      var carry;
      length, carry := FoldByte(b58, length, byte);
      if carry != 0 {
        return None;
      }
      p := p + 1;
    }
    assert input[..p] == input;
    var text := Spell(b58, length);
    res := Some(text);
  }

  lemma CidPrefixFits(hash: Hash, p: nat, byte: Byte)
    requires p < 34 && byte == if p == 0 then 18 else if p == 1 then 32 else hash[p - 2]
    ensures Num(256, Multihash(hash)[..p + 1]) == Num(256, Multihash(hash)[..p]) * 256 + byte < Pow(58, CID_BUFFER)
  {
    var input := Multihash(hash);
    assert input[..p + 1][..p] == input[..p] && input[p] == byte;
    PrefixNumGrows(input, p + 1);
    CidFits(hash);
  }

  /** 47 digits are enough: the carry out of the buffer is always zero. */
  lemma CidFits(hash: Hash)
    ensures Num(256, Multihash(hash)) < Pow(58, CID_BUFFER)
  {
    MultihashRange(hash);
    PowAdd(58, 3, 44);
    assert Pow(58, 3) == 195112 by {
      assert Pow(58, 1) == 58;
      assert Pow(58, 2) == 3364;
    }
    var p := Pow(58, 44);
    assert 1379 * p <= 195112 * p;
  }
}
