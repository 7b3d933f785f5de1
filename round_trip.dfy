/**
 * What StoreBytes leaves behind for Restore and History to find, for both
 * repositories of the field-exploding layout. Right after a store, the
 * field entries under the document's prefix, and the sorted set of the
 * store's transaction, rebuild into the stored document: every member reads
 * back as its field entry writes it, and no other member appears. Field
 * entries are never deleted, so the Restore statement needs a document
 * prefix that was empty before the store; otherwise the fields of earlier
 * stores are rebuilt alongside.
 */
module RoundTrip {
  import opened Wrappers
  import opened Text
  import opened Decimal
  import opened Json
  import opened Immudb
  import opened Keys
  import opened Exploded

  /**
   * After StoreBytes every field entry's current revision holds its member's
   * stored text and was written at the batch's transaction.
   */
  lemma FieldAfterStore(s: Snapshot, coll: string, keys: seq<string>, doc: Document, enc: Encoding, j: nat)
    requires Request(coll, keys, doc, enc).Ok? && Acceptable(Request(coll, keys, doc, enc).value)
    requires j < |doc.members|
    ensures var v := doc.paths[keys[0]].str;
      var after := StoreAfter(s, coll, keys, doc, enc);
      var fk := FieldKey(coll, v, doc.members[j].name);
      && fk in after.revs
      && Current(after.revs, fk).value == Stored(enc, doc.members[j].value)
      && ValueAt(after.revs[fk], s.lastTx + 1) == Some(Stored(enc, doc.members[j].value))
  {
    RequestShape(coll, keys, doc, enc);
    var kvs := Request(coll, keys, doc, enc).value;
    var v := doc.paths[keys[0]].str;
    var m := doc.members[j];
    assert kvs[|keys| + j] == KV(FieldKey(coll, v, m.name), Stored(enc, m.value));
    VersionsKeyNotUnderObject(coll, keys[0], v);
    FieldNameRoundTrip(coll, v, m.name);
    BatchEntryRecorded(s, coll, keys[0], v, kvs, |keys|, |keys| + j);
  }

  /**
   * After StoreBytes the primary index key is stored, its current value is
   * the primary-key text, and the key list is what was there plus the
   * batch's keys and the versions key.
   */
  lemma KeysAfterStore(s: Snapshot, coll: string, keys: seq<string>, doc: Document, enc: Encoding)
    requires Request(coll, keys, doc, enc).Ok? && Acceptable(Request(coll, keys, doc, enc).value)
    ensures var v := doc.paths[keys[0]].str;
      var after := StoreAfter(s, coll, keys, doc, enc);
      var ik := IndexKey(coll, keys[0], v);
      && (forall x :: x in after.keys <==>
            x in s.keys || x in KeysOf(Request(coll, keys, doc, enc).value) || x == VersionsKey(coll, keys[0], v))
      && (Sorted(s.keys) ==> Sorted(after.keys))
      && ik in after.keys && ik in after.revs
      && Current(after.revs, ik).value == v
  {
    RequestShape(coll, keys, doc, enc);
    var kvs := Request(coll, keys, doc, enc).value;
    var v := doc.paths[keys[0]].str;
    BatchKeysRecorded(s, coll, keys[0], v, kvs, |keys|);
    assert kvs[0].key in KeysOf(kvs);
    IndexKeyNotVersionsKey(coll, keys[0], v);
    BatchEntryRecorded(s, coll, keys[0], v, kvs, |keys|, 0);
  }

  /**
   * After StoreBytes the sorted set of the store's transaction, if it did
   * not exist before, is the document's field keys pinned at that
   * transaction.
   */
  lemma SetAfterStore(s: Snapshot, coll: string, keys: seq<string>, doc: Document, enc: Encoding)
    requires Request(coll, keys, doc, enc).Ok?
    requires VersionSet(coll, keys[0], doc.paths[keys[0]].str, Format(s.lastTx + 1)) !in s.zsets
    ensures var v := doc.paths[keys[0]].str;
      var after := StoreAfter(s, coll, keys, doc, enc);
      SetIn(after.zsets, VersionSet(coll, keys[0], v, Format(s.lastTx + 1))) ==
        AddAll(ZSet([], map[]), FieldKeys(coll, v, doc.members), s.lastTx + 1)
  {
    RequestShape(coll, keys, doc, enc);
  }

  /** A member pinned at the transaction that wrote `value` reads back that value. */
  lemma StoredMemberEntry(m: string, atTx: map<string, nat>, revs: map<string, seq<Revision>>, t: nat, value: string)
    requires m in atTx && atTx[m] == t
    requires m in revs && ValueAt(revs[m], t) == Some(value)
    ensures MemberEntry(m, atTx, revs).value == value
  {
  }

  /** A set in member order that fits in one page reads back as its members, once each, with their pinned values. */
  lemma SetFields(z: ZSet, revs: map<string, seq<Revision>>, limit: nat)
    requires MemberSorted(z.members) && |z.members| <= limit
    ensures var fields := ZEntryFields(Members(z.members, z.atTx, revs, limit));
      && KeyList(fields) == z.members
      && DistinctKeys(fields)
      && forall i :: 0 <= i < |fields| ==> fields[i].value == MemberEntry(z.members[i], z.atTx, revs).value
  {
    MemberSortedDistinct(z.members);
  }

  /** The entries ZScan reads from the set of a store's transaction are the document's field entries. */
  lemma VersionFields(s: Snapshot, pageSize: nat, coll: string, keys: seq<string>, doc: Document, enc: Encoding)
    requires Request(coll, keys, doc, enc).Ok? && Acceptable(Request(coll, keys, doc, enc).value)
    requires VersionSet(coll, keys[0], doc.paths[keys[0]].str, Format(s.lastTx + 1)) !in s.zsets
    requires |doc.members| <= pageSize
    ensures var v := doc.paths[keys[0]].str;
      var after := StoreAfter(s, coll, keys, doc, enc);
      var z := SetIn(after.zsets, VersionSet(coll, keys[0], v, Format(s.lastTx + 1)));
      ListsFields(ZEntryFields(Members(z.members, z.atTx, after.revs, pageSize)), coll, v, doc, enc)
  {
    SetAfterStore(s, coll, keys, doc, enc);
    var v := doc.paths[keys[0]].str;
    var t := s.lastTx + 1;
    var after := StoreAfter(s, coll, keys, doc, enc);
    var fks := FieldKeys(coll, v, doc.members);
    var z := SetIn(after.zsets, VersionSet(coll, keys[0], v, Format(t)));
    AddAllMembers(ZSet([], map[]), fks, t);
    AddAllSorted(ZSet([], map[]), fks, t);
    var zs := Members(z.members, z.atTx, after.revs, pageSize);
    var fields := ZEntryFields(zs);
    SetFields(z, after.revs, pageSize);
    forall i, j | 0 <= i < |fields| && 0 <= j < |doc.members| && fields[i].key == FieldKey(coll, v, doc.members[j].name)
      ensures fields[i].value == Stored(enc, doc.members[j].value)
    {
      var m := z.members[i];
      assert m == fks[j] && fks[j] in fks;
      FieldAfterStore(s, coll, keys, doc, enc, j);
      StoredMemberEntry(m, z.atTx, after.revs, t, Stored(enc, doc.members[j].value));
    }
    FieldsListed(fields, coll, v, doc, enc);
  }

  /**
   * Right after StoreBytes, the version it recorded reads back the stored
   * document: it rebuilds exactly when no member name is empty, and then
   * holds exactly the document's members, each as its field entry writes it
   * back. The set of the store's transaction must be new and fit in one
   * ZScan page.
   */
  lemma VersionRoundTrip(s: Snapshot, pageSize: nat, coll: string, keys: seq<string>, doc: Document, enc: Encoding)
    requires Request(coll, keys, doc, enc).Ok? && Acceptable(Request(coll, keys, doc, enc).value)
    requires VersionSet(coll, keys[0], doc.paths[keys[0]].str, Format(s.lastTx + 1)) !in s.zsets
    requires |doc.members| <= pageSize
    ensures var after := StoreAfter(s, coll, keys, doc, enc);
      var obj := VersionObject(after.revs, after.zsets, pageSize, coll, keys[0], doc.paths[keys[0]].str,
                               Format(s.lastTx + 1), enc);
      && (obj.Ok? <==> forall m :: m in doc.members ==> m.name != [])
      && (obj.Ok? ==> HoldsMembers(obj.value, doc, enc))
  {
    VersionFields(s, pageSize, coll, keys, doc, enc);
    var v := doc.paths[keys[0]].str;
    var after := StoreAfter(s, coll, keys, doc, enc);
    var z := SetIn(after.zsets, VersionSet(coll, keys[0], v, Format(s.lastTx + 1)));
    RebuildMembers(coll, v, ZEntryFields(Members(z.members, z.atTx, after.revs, pageSize)), doc, enc);
  }

  /**
   * Right after StoreBytes, the keys under the document's prefix are
   * exactly its field keys, when nothing was stored under that prefix
   * before and no indexed field name starts with `{`.
   */
  lemma PrefixAfterStore(s: Snapshot, coll: string, keys: seq<string>, doc: Document, enc: Encoding)
    requires Sorted(s.keys)
    requires Request(coll, keys, doc, enc).Ok? && Acceptable(Request(coll, keys, doc, enc).value)
    requires forall k :: k in s.keys ==> !HasPrefix(k, ObjectPrefix(coll, doc.paths[keys[0]].str))
    requires forall j :: 0 <= j < |keys| ==> keys[j] == [] || keys[j][0] != '{'
    ensures var v := doc.paths[keys[0]].str;
      var after := StoreAfter(s, coll, keys, doc, enc);
      var ms := Matching(after.keys, ObjectPrefix(coll, v), []);
      && Sorted(ms)
      && forall x :: x in ms <==> x in FieldKeys(coll, v, doc.members)
  {
    KeysAfterStore(s, coll, keys, doc, enc);
    var kvs := Request(coll, keys, doc, enc).value;
    var v := doc.paths[keys[0]].str;
    var after := StoreAfter(s, coll, keys, doc, enc);
    var p := ObjectPrefix(coll, v);
    var fks := FieldKeys(coll, v, doc.members);
    var ms := Matching(after.keys, p, []);
    MatchingMembers(after.keys, p, []);
    MatchingSorted(after.keys, p, []);
    VersionsKeyNotUnderObject(coll, keys[0], v);
    forall x | x in ms ensures x in fks {
      BatchUnderObject(coll, keys, doc, enc, x);
    }
    forall x | x in fks ensures x in ms {
      FieldsInBatch(coll, keys, doc, enc, x);
    }
  }

  /** The only keys of a write request under the document's prefix are its field keys. */
  lemma BatchUnderObject(coll: string, keys: seq<string>, doc: Document, enc: Encoding, x: string)
    requires Request(coll, keys, doc, enc).Ok?
    requires forall j :: 0 <= j < |keys| ==> keys[j] == [] || keys[j][0] != '{'
    requires x in KeysOf(Request(coll, keys, doc, enc).value) && HasPrefix(x, ObjectPrefix(coll, doc.paths[keys[0]].str))
    ensures x in FieldKeys(coll, doc.paths[keys[0]].str, doc.members)
  {
    RequestShape(coll, keys, doc, enc);
    var kvs := Request(coll, keys, doc, enc).value;
    var v := doc.paths[keys[0]].str;
    var i :| 0 <= i < |kvs| && kvs[i].key == x;
    if i < |keys| {
      IndexKeysNotUnderObject(coll, keys[i], if i == 0 then [] else doc.paths[keys[i]].str, v);
      assert false;
    }
    assert FieldKeys(coll, v, doc.members)[i - |keys|] == x;
  }

  /** Every field key of a write request is one of its keys and lies under the document's prefix. */
  lemma FieldsInBatch(coll: string, keys: seq<string>, doc: Document, enc: Encoding, x: string)
    requires Request(coll, keys, doc, enc).Ok?
    requires x in FieldKeys(coll, doc.paths[keys[0]].str, doc.members)
    ensures x in KeysOf(Request(coll, keys, doc, enc).value) && HasPrefix(x, ObjectPrefix(coll, doc.paths[keys[0]].str))
  {
    RequestShape(coll, keys, doc, enc);
    var kvs := Request(coll, keys, doc, enc).value;
    var v := doc.paths[keys[0]].str;
    var fks := FieldKeys(coll, v, doc.members);
    var j :| 0 <= j < |fks| && fks[j] == x;
    FieldNameRoundTrip(coll, v, doc.members[j].name);
    assert kvs[|keys| + j].key in KeysOf(kvs);
  }

  /**
   * The entries Restore reads under the document's prefix right after
   * StoreBytes are the document's field entries, when nothing was stored
   * under that prefix before and no indexed field name starts with `{`.
   */
  lemma CatalogFields(s: Snapshot, pageSize: nat, coll: string, keys: seq<string>, doc: Document, enc: Encoding)
    requires StoreValid(s)
    requires Request(coll, keys, doc, enc).Ok? && Acceptable(Request(coll, keys, doc, enc).value)
    requires forall k :: k in s.keys ==> !HasPrefix(k, ObjectPrefix(coll, doc.paths[keys[0]].str))
    requires forall j :: 0 <= j < |keys| ==> keys[j] == [] || keys[j][0] != '{'
    requires |doc.members| <= pageSize
    ensures var v := doc.paths[keys[0]].str;
      var after := StoreAfter(s, coll, keys, doc, enc);
      ListsFields(EntryFields(Page(after.keys, after.revs, ObjectPrefix(coll, v), [], pageSize)), coll, v, doc, enc)
  {
    PrefixAfterStore(s, coll, keys, doc, enc);
    var v := doc.paths[keys[0]].str;
    var after := StoreAfter(s, coll, keys, doc, enc);
    var fks := FieldKeys(coll, v, doc.members);
    var ms := Matching(after.keys, ObjectPrefix(coll, v), []);
    SortedWithin(ms, fks);
    assert ms[..Min(pageSize, |ms|)] == ms;
    var fields := EntryFields(Page(after.keys, after.revs, ObjectPrefix(coll, v), [], pageSize));
    forall i | 0 <= i < |fields| ensures fields[i] == KV(ms[i], Current(after.revs, ms[i]).value) {
      CurrentsAt(after.revs, ms, i);
    }
    assert KeyList(fields) == ms;
    SortedPairs(ms);
    forall i, j | 0 <= i < j < |fields| ensures fields[i].key != fields[j].key {
      LtIrreflexive(ms[i]);
    }
    forall i, j | 0 <= i < |fields| && 0 <= j < |doc.members| && fields[i].key == FieldKey(coll, v, doc.members[j].name)
      ensures fields[i].value == Stored(enc, doc.members[j].value)
    {
      FieldAfterStore(s, coll, keys, doc, enc, j);
    }
    FieldsListed(fields, coll, v, doc, enc);
  }

  /**
   * Right after StoreBytes, the primary index key of the stored document
   * leads Restore to that document: it rebuilds exactly when no member name
   * is empty, and then holds exactly the document's members. Nothing may
   * have been stored under the document's prefix before (field entries of
   * earlier stores are never deleted and would be merged in), and no
   * indexed field name may start with `{`.
   */
  lemma RestoreRoundTrip(s: Snapshot, pageSize: nat, coll: string, keys: seq<string>, doc: Document, enc: Encoding)
    requires StoreValid(s)
    requires Request(coll, keys, doc, enc).Ok? && Acceptable(Request(coll, keys, doc, enc).value)
    requires forall k :: k in s.keys ==> !HasPrefix(k, ObjectPrefix(coll, doc.paths[keys[0]].str))
    requires forall j :: 0 <= j < |keys| ==> keys[j] == [] || keys[j][0] != '{'
    requires |doc.members| <= pageSize
    ensures var after := StoreAfter(s, coll, keys, doc, enc);
      var cat := Catalog(after.keys, after.revs, pageSize, coll, enc);
      var ik := IndexKey(coll, keys[0], doc.paths[keys[0]].str);
      && ik in cat
      && (cat[ik].Ok? <==> forall m :: m in doc.members ==> m.name != [])
      && (cat[ik].Ok? ==> HoldsMembers(cat[ik].value, doc, enc))
  {
    var v := doc.paths[keys[0]].str;
    var after := StoreAfter(s, coll, keys, doc, enc);
    var ik := IndexKey(coll, keys[0], v);
    KeysAfterStore(s, coll, keys, doc, enc);
    CatalogOfAt(after.keys, after.revs, pageSize, coll, enc, after.keys, ik);
    CatalogFields(s, pageSize, coll, keys, doc, enc);
    RebuildMembers(coll, v, EntryFields(Page(after.keys, after.revs, ObjectPrefix(coll, v), [], pageSize)), doc, enc);
  }

  /**
   * Right after StoreBytes, a Restore by the primary field with any prefix
   * of the primary-key text lists the document's primary index key.
   */
  lemma RestoreListsStored(s: Snapshot, coll: string, keys: seq<string>, doc: Document, enc: Encoding, cond: string)
    requires Request(coll, keys, doc, enc).Ok? && Acceptable(Request(coll, keys, doc, enc).value)
    requires HasPrefix(doc.paths[keys[0]].str, cond)
    ensures var after := StoreAfter(s, coll, keys, doc, enc);
      IndexKey(coll, keys[0], doc.paths[keys[0]].str) in Matching(after.keys, ScanPrefix(coll, keys[0], cond), [])
  {
    var v := doc.paths[keys[0]].str;
    var after := StoreAfter(s, coll, keys, doc, enc);
    KeysAfterStore(s, coll, keys, doc, enc);
    IndexKeysMatchPrefix(coll, keys[0], v, cond, v);
    MatchingMembers(after.keys, ScanPrefix(coll, keys[0], cond), []);
  }
}
