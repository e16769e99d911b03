/**
 The table of sealed files (src/enclave/workload/Workload.cpp): a vector kept in
 strictly ascending order of CID and searched by bisection. A sorted table is a
 finite map, and insertion, removal and update of the vector are insertion, removal
 and update of that map.
 */
module FileTable {
  import opened Basics
  import opened Order

  type Cid = string

  /** FILE_STATUS_*: '0' to '4'. */
  datatype Status = Unverified | Valid | Lost | Deleted | Pending

  /** What the table keeps of a file: its size, the chain height at sealing, and its three statuses. */
  datatype File = File(size: nat, blockNum: nat, current: Status, waiting: Status, origin: Status)

  datatype Entry = Entry(cid: Cid, file: File)

  ghost predicate Sorted(t: seq<Entry>) {
    forall i, j :: 0 <= i < j < |t| ==> Less(t[i].cid, t[j].cid)
  }

  /** The map that a table stands for. */
  ghost function AsMap(t: seq<Entry>): map<Cid, File> {
    if t == [] then map[] else AsMap(t[..|t| - 1])[t[|t| - 1].cid := t[|t| - 1].file]
  }

  /** `p` is where an entry for `cid` belongs. */
  ghost predicate Belongs(t: seq<Entry>, cid: Cid, p: nat) {
    && p <= |t|
    && (forall i :: 0 <= i < p ==> Less(t[i].cid, cid))
    && (forall i :: p <= i < |t| ==> Less(cid, t[i].cid))
  }

  function Insert(t: seq<Entry>, p: nat, e: Entry): seq<Entry>
    requires p <= |t|
  {
    t[..p] + [e] + t[p..]
  }

  // ----- A sorted table is a map -----

  lemma SortedDistinct(t: seq<Entry>, i: nat, j: nat)
    requires Sorted(t) && i < |t| && j < |t| && t[i].cid == t[j].cid
    ensures i == j
  {
    Irreflexive(t[i].cid);
  }

  lemma {:induction false} AsMapKeys(t: seq<Entry>, cid: Cid)
    ensures cid in AsMap(t) <==> exists i :: 0 <= i < |t| && t[i].cid == cid
  {
    if t != [] {
      var n := |t| - 1;
      AsMapKeys(t[..n], cid);
      if cid in AsMap(t[..n]) {
        var i :| 0 <= i < n && t[..n][i].cid == cid;
        assert t[i].cid == cid;
      }
      if i :| 0 <= i < |t| && t[i].cid == cid {
        assert i < n ==> t[..n][i].cid == cid;
      }
    }
  }

  lemma {:induction false} AsMapAt(t: seq<Entry>, i: nat)
    requires Sorted(t) && i < |t|
    ensures t[i].cid in AsMap(t) && AsMap(t)[t[i].cid] == t[i].file
  {
    var n := |t| - 1;
    if i < n {
      AsMapAt(t[..n], i);
      Irreflexive(t[i].cid);
      assert Less(t[i].cid, t[n].cid);
    }
  }

  lemma FoundNowhere(t: seq<Entry>, cid: Cid, p: nat)
    requires Belongs(t, cid, p)
    ensures cid !in AsMap(t)
  {
    AsMapKeys(t, cid);
    Irreflexive(cid);
  }

  lemma BelongsOnce(t: seq<Entry>, cid: Cid, p: nat, q: nat)
    requires Belongs(t, cid, p) && Belongs(t, cid, q)
    ensures p == q
  {
    Irreflexive(cid);
    if p < q {
      Transitive(cid, t[p].cid, cid);
    } else if q < p {
      Transitive(cid, t[q].cid, cid);
    }
  }

  /** Two maps are equal if the table of one lists exactly the pairs of the other. */
  lemma MapFromTable(t: seq<Entry>, m: map<Cid, File>)
    requires Sorted(t)
    requires forall i :: 0 <= i < |t| ==> t[i].cid in m && m[t[i].cid] == t[i].file
    requires forall c :: c in m ==> exists i :: 0 <= i < |t| && t[i].cid == c
    ensures AsMap(t) == m
  {
    forall c
      ensures c in m <==> c in AsMap(t)
      ensures c in m ==> m[c] == AsMap(t)[c]
    {
      AsMapKeys(t, c);
      if c in m {
        var i :| 0 <= i < |t| && t[i].cid == c;
        AsMapAt(t, i);
      }
    }
  }

  lemma InsertKeepsSorted(t: seq<Entry>, p: nat, e: Entry)
    requires Sorted(t) && Belongs(t, e.cid, p)
    ensures Sorted(Insert(t, p, e))
  {
    var t' := Insert(t, p, e);
    forall i, j | 0 <= i < j < |t'|
      ensures Less(t'[i].cid, t'[j].cid)
    {
      assert t'[i] == if i < p then t[i] else if i == p then e else t[i - 1];
      assert t'[j] == if j < p then t[j] else if j == p then e else t[j - 1];
    }
  }

  lemma InsertIsMapInsert(t: seq<Entry>, p: nat, e: Entry)
    requires Sorted(t) && Belongs(t, e.cid, p)
    ensures Sorted(Insert(t, p, e)) && AsMap(Insert(t, p, e)) == AsMap(t)[e.cid := e.file]
  {
    var t', m := Insert(t, p, e), AsMap(t)[e.cid := e.file];
    InsertKeepsSorted(t, p, e);
    FoundNowhere(t, e.cid, p);
    forall i | 0 <= i < |t'|
      ensures t'[i].cid in m && m[t'[i].cid] == t'[i].file
    {
      if i != p {
        var k := if i < p then i else i - 1;
        assert t'[i] == t[k];
        AsMapAt(t, k);
      }
    }
    forall c | c in m
      ensures exists i :: 0 <= i < |t'| && t'[i].cid == c
    {
      if c == e.cid {
        assert t'[p].cid == c;
      } else {
        AsMapKeys(t, c);
        var k :| 0 <= k < |t| && t[k].cid == c;
        assert t'[if k < p then k else k + 1].cid == c;
      }
    }
    MapFromTable(t', m);
  }

  lemma EraseShape(t: seq<Entry>, p: nat)
    requires Sorted(t) && p < |t|
    ensures Sorted(Without(t, p)) && Belongs(Without(t, p), t[p].cid, p)
  {
    var t' := Without(t, p);
    assert forall i :: 0 <= i < |t'| ==> t'[i] == if i < p then t[i] else t[i + 1];
  }

  lemma EraseThenInsert(t: seq<Entry>, p: nat)
    requires p < |t|
    ensures Insert(Without(t, p), p, t[p]) == t
  {
    var t' := Without(t, p);
    assert t'[..p] == t[..p] && t'[p..] == t[p + 1..];
  }

  lemma RemoveInserted(m: map<Cid, File>, c: Cid, f: File)
    requires c !in m
    ensures m[c := f] - {c} == m
  {
  }

  /** Removal undoes the insertion of the same entry. */
  lemma EraseIsMapRemove(t: seq<Entry>, p: nat)
    requires Sorted(t) && p < |t|
    ensures Sorted(Without(t, p)) && AsMap(Without(t, p)) == AsMap(t) - {t[p].cid}
  {
    EraseShape(t, p);
    EraseThenInsert(t, p);
    InsertIsMapInsert(Without(t, p), p, t[p]);
    FoundNowhere(Without(t, p), t[p].cid, p);
    RemoveInserted(AsMap(Without(t, p)), t[p].cid, t[p].file);
  }

  lemma UpdateIsMapUpdate(t: seq<Entry>, p: nat, f: File)
    requires Sorted(t) && p < |t|
    ensures var t' := t[p := Entry(t[p].cid, f)];
            Sorted(t') && AsMap(t') == AsMap(t)[t[p].cid := f]
  {
    var t', m := t[p := Entry(t[p].cid, f)], AsMap(t)[t[p].cid := f];
    forall i | 0 <= i < |t'|
      ensures t'[i].cid in m && m[t'[i].cid] == t'[i].file
    {
      AsMapAt(t, i);
      if i != p && t[i].cid == t[p].cid {
        SortedDistinct(t, i, p);
      }
    }
    forall c | c in m
      ensures exists i :: 0 <= i < |t'| && t'[i].cid == c
    {
      AsMapKeys(t, c);
      if c == t[p].cid {
        assert t'[p].cid == c;
      } else {
        var k :| 0 <= k < |t| && t[k].cid == c;
        assert t'[k].cid == c;
      }
    }
    MapFromTable(t', m);
  }

  /**
   is_file_dup_nolock, called with position 0: true with the position of the entry
   if the CID is in the table, false with the one place where it belongs if not.
   */
  method Search(t: seq<Entry>, cid: Cid) returns (found: bool, pos: nat)
    requires Sorted(t)
    ensures found <==> cid in AsMap(t)
    ensures found ==> pos < |t| && t[pos].cid == cid && AsMap(t)[cid] == t[pos].file
    ensures !found ==> Belongs(t, cid, pos)
  {
    pos := 0;
    var spos, epos := 0, |t|;
    while spos <= epos
      invariant 0 <= spos <= |t| && -1 <= epos <= |t| && spos <= epos + 1
      invariant forall i :: 0 <= i < spos ==> Less(t[i].cid, cid)
      invariant forall i :: epos < i < |t| ==> Less(cid, t[i].cid)
      invariant pos == spos || (epos < |t| && pos == epos + 1)
      decreases epos - spos
    {
      var mpos := (spos + epos) / 2;
      if mpos >= |t| {
        break;
      }
      if Less(t[mpos].cid, cid) {
        AllBelow(t, mpos, cid);
        spos := mpos + 1;
        pos := Min(spos, |t|);
      } else if Less(cid, t[mpos].cid) {
        AllAbove(t, mpos, cid);
        pos := mpos;
        epos := mpos - 1;
      } else {
        Total(cid, t[mpos].cid);
        AsMapAt(t, mpos);
        pos := mpos;
        return true, pos;
      }
    }
    FoundNowhere(t, cid, pos);
    found := false;
  }

  lemma AllBelow(t: seq<Entry>, m: nat, cid: Cid)
    requires Sorted(t) && m < |t| && Less(t[m].cid, cid)
    ensures forall i :: 0 <= i <= m ==> Less(t[i].cid, cid)
  {
    forall i | 0 <= i < m
      ensures Less(t[i].cid, cid)
    {
      Transitive(t[i].cid, t[m].cid, cid);
    }
  }

  lemma AllAbove(t: seq<Entry>, m: nat, cid: Cid)
    requires Sorted(t) && m < |t| && Less(cid, t[m].cid)
    ensures forall i :: m <= i < |t| ==> Less(cid, t[i].cid)
  {
    forall i | m < i < |t|
      ensures Less(cid, t[i].cid)
    {
      Transitive(cid, t[m].cid, t[i].cid);
    }
  }
}
