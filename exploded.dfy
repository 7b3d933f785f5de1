/**
 * The field-exploding layout shared by JsonRepository and ImmudbObjects.
 * A document is stored as
 *   - one index entry per indexed field, whose value is the primary-key text;
 *   - one entry `coll.{v}.<field>` per top-level field;
 *   - per write, a sorted set `coll.pk.{v}.<tx>` holding the field keys,
 *     each pinned at the write's transaction;
 *   - a revision of `coll.versions.pk.{v}` holding that transaction id as
 *     decimal text.
 * The two repositories differ only in what a field entry holds (the raw JSON
 * or its String() text) and how it is written back (SetRaw or Set); the
 * `Encoding` names which.
 */
module Exploded {
  import opened Wrappers
  import opened Text
  import opened Decimal
  import opened Json
  import opened Immudb
  import opened Keys
  import opened Errors

  /** AsRaw: store Raw, rebuild with SetRaw. AsString: store String(), rebuild with Set. */
  datatype Encoding = AsRaw | AsString

  /** What a field entry holds for a member's value. */
  function Stored(enc: Encoding, v: Value): string
  {
    match enc
    case AsRaw => v.raw
    case AsString => v.str
  }

  /** How a field entry's bytes are written back into a rebuilt object. */
  function Restored(enc: Encoding, s: string): Fragment
  {
    match enc
    case AsRaw => RawJson(s)
    case AsString => Str(s)
  }

  /** The index entry for `keys[j]`; its value is the primary-key text `v` itself. */
  function IndexEntry(coll: string, keys: seq<string>, doc: Document, v: string, j: nat): KV
    requires j < |keys| && keys[j] in doc.paths
  {
    if j == 0 then KV(IndexKey(coll, keys[0], v), v)
    else KV(SecondaryKey(coll, keys[j], doc.paths[keys[j]].str, v), v)
  }

  /** The entry holding one top-level member of the document whose primary-key text is `v`. */
  function FieldEntry(coll: string, v: string, m: Member, enc: Encoding): KV
  {
    KV(FieldKey(coll, v, m.name), Stored(enc, m.value))
  }

  function FieldEntries(coll: string, v: string, members: seq<Member>, enc: Encoding): seq<KV>
  {
    seq(|members|, i requires 0 <= i < |members| => FieldEntry(coll, v, members[i], enc))
  }

  /**
   * The batch StoreBytes sends for `doc`, or the error it returns without
   * writing anything.
   */
  function Request(coll: string, keys: seq<string>, doc: Document, enc: Encoding): Result<seq<KV>, Error>
  {
    if |keys| == 0 then Err(Failed("primary key is mandataory"))
    else if keys[0] !in doc.paths then Err(Failed("missing primary key in object"))
    else if !AllPresent(doc, keys[1..]) then Err(Failed("missing secondary key in object"))
    else
      var v := doc.paths[keys[0]].str;
      assert forall j :: 0 <= j < |keys| ==> keys[j] in doc.paths by {
        forall j | 1 <= j < |keys| ensures keys[j] in doc.paths {
          assert keys[1..][j - 1] == keys[j];
        }
      }
      Ok(seq(|keys|, j requires 0 <= j < |keys| => IndexEntry(coll, keys, doc, v, j))
        + FieldEntries(coll, v, doc.members, enc))
  }

  /** The keys of a batch, in order. */
  function KeyList(kvs: seq<KV>): seq<string>
  {
    seq(|kvs|, i requires 0 <= i < |kvs| => kvs[i].key)
  }

  /** Keys added one after another to a sorted set, each pinned at `tx`. */
  function AddAll(z: ZSet, ks: seq<string>, tx: nat): (r: ZSet)
    ensures |z.members| <= |r.members| <= |z.members| + |ks|
  {
    if ks == [] then z
    else AddMember(AddAll(z, ks[..|ks| - 1], tx), ks[|ks| - 1], tx)
  }

  /**
   * After adding, the set holds its old members and the added keys and no
   * others; every added key is pinned at `tx`, every other member keeps its
   * transaction.
   */
  lemma {:induction false} AddAllMembers(z: ZSet, ks: seq<string>, tx: nat)
    ensures forall m :: m in AddAll(z, ks, tx).members <==> m in z.members || m in ks
    ensures forall m :: m in AddAll(z, ks, tx).atTx <==> m in z.atTx || m in ks
    ensures forall m :: m in ks ==> AddAll(z, ks, tx).atTx[m] == tx
    ensures forall m :: m in z.atTx && m !in ks ==> AddAll(z, ks, tx).atTx[m] == z.atTx[m]
  {
    if ks != [] {
      var init := ks[..|ks| - 1];
      AddAllMembers(z, init, tx);
      InsertMemberMembers(AddAll(z, init, tx).members, ks[|ks| - 1]);
      assert ks == init + [ks[|ks| - 1]];
    }
  }

  /** Adding keys to a set keeps its members in member order. */
  lemma {:induction false} AddAllSorted(z: ZSet, ks: seq<string>, tx: nat)
    requires MemberSorted(z.members)
    ensures MemberSorted(AddAll(z, ks, tx).members)
  {
    if ks != [] {
      AddAllSorted(z, ks[..|ks| - 1], tx);
      InsertMemberSorted(AddAll(z, ks[..|ks| - 1], tx).members, ks[|ks| - 1]);
    }
  }

  /** The sorted sets after the keys `ks` were added to the set `name` (none added: nothing changes). */
  function WithSet(zsets: map<string, ZSet>, name: string, ks: seq<string>, tx: nat): map<string, ZSet>
  {
    if ks == [] then zsets else zsets[name := AddAll(SetIn(zsets, name), ks, tx)]
  }

  /** The member name a field entry is written back under: its key with `coll.{v}.` trimmed. */
  function FieldName(coll: string, v: string, kv: KV): string
  {
    TrimPrefix(kv.key, ObjectPrefix(coll, v) + ".")
  }

  /**
   * The object rebuilt from field entries in order, each value written back
   * under its field name; the first entry the writer refuses (an empty name)
   * gives the error.
   */
  function Rebuild(coll: string, v: string, fields: seq<KV>, enc: Encoding): Result<Object, string>
  {
    if fields == [] then Ok([])
    else
      var last := fields[|fields| - 1];
      match Rebuild(coll, v, fields[..|fields| - 1], enc)
      case Err(e) => Err(e)
      case Ok(obj) => SetPath(obj, FieldName(coll, v, last), Restored(enc, last.value))
  }

  /** Once some leading entries fail to rebuild, all of them fail with the same error. */
  lemma {:induction false} RebuildKeepsError(coll: string, v: string, fields: seq<KV>, enc: Encoding, n: nat)
    requires n <= |fields| && Rebuild(coll, v, fields[..n], enc).Err?
    ensures Rebuild(coll, v, fields, enc) == Rebuild(coll, v, fields[..n], enc)
    decreases |fields|
  {
    if n < |fields| {
      var init := fields[..|fields| - 1];
      assert init[..n] == fields[..n];
      RebuildKeepsError(coll, v, init, enc, n);
    } else {
      assert fields[..n] == fields;
    }
  }

  /** Rebuilding fails exactly when some entry's field name is empty. */
  lemma {:induction false} RebuildFails(coll: string, v: string, fields: seq<KV>, enc: Encoding)
    ensures Rebuild(coll, v, fields, enc).Err? <==>
      exists i :: 0 <= i < |fields| && FieldName(coll, v, fields[i]) == []
  {
    if fields != [] {
      var init := fields[..|fields| - 1];
      RebuildFails(coll, v, init, enc);
      if exists i :: 0 <= i < |init| && FieldName(coll, v, init[i]) == [] {
        var i :| 0 <= i < |init| && FieldName(coll, v, init[i]) == [];
        assert fields[i] == init[i];
      }
      if exists i :: 0 <= i < |fields| && FieldName(coll, v, fields[i]) == [] {
        var i :| 0 <= i < |fields| && FieldName(coll, v, fields[i]) == [];
        if i < |init| {
          assert init[i] == fields[i];
        }
      }
    }
  }

  /**
   * Entries with non-empty, pairwise distinct field names rebuild into an
   * object in which each name reads back its entry's value and no other
   * name is present.
   */
  lemma {:induction false} RebuildLookup(coll: string, v: string, fields: seq<KV>, enc: Encoding)
    requires forall i :: 0 <= i < |fields| ==> FieldName(coll, v, fields[i]) != []
    requires forall i, j :: 0 <= i < j < |fields| ==> FieldName(coll, v, fields[i]) != FieldName(coll, v, fields[j])
    ensures Rebuild(coll, v, fields, enc).Ok?
    ensures forall i :: 0 <= i < |fields| ==>
      Lookup(Rebuild(coll, v, fields, enc).value, FieldName(coll, v, fields[i])) == Some(Restored(enc, fields[i].value))
    ensures forall n :: Lookup(Rebuild(coll, v, fields, enc).value, n).Some? ==>
      exists i :: 0 <= i < |fields| && FieldName(coll, v, fields[i]) == n
  {
    if fields != [] {
      var init := fields[..|fields| - 1];
      var last := fields[|fields| - 1];
      assert forall i :: 0 <= i < |init| ==> init[i] == fields[i];
      RebuildLookup(coll, v, init, enc);
      var obj := Rebuild(coll, v, init, enc).value;
      var name := FieldName(coll, v, last);
      var r := SetPath(obj, name, Restored(enc, last.value));
      assert Rebuild(coll, v, fields, enc) == r;
      forall n | Lookup(r.value, n).Some?
        ensures exists i :: 0 <= i < |fields| && FieldName(coll, v, fields[i]) == n
      {
        if n != name {
          var i :| 0 <= i < |init| && FieldName(coll, v, init[i]) == n;
          assert fields[i] == init[i];
        }
      }
    }
  }

  /** `obj` holds exactly the members of `doc`, each as its field entry writes it back. */
  ghost predicate HoldsMembers(obj: Object, doc: Document, enc: Encoding)
  {
    && (forall m :: m in doc.members ==> Lookup(obj, m.name) == Some(Restored(enc, Stored(enc, m.value))))
    && (forall n :: Lookup(obj, n).Some? ==> exists m :: m in doc.members && m.name == n)
  }

  /** `fields` are the field entries of `doc`'s members, each key once, in any order. */
  ghost predicate ListsFields(fields: seq<KV>, coll: string, v: string, doc: Document, enc: Encoding)
  {
    && DistinctKeys(fields)
    && (forall m {:trigger FieldEntry(coll, v, m, enc)} :: m in doc.members ==> FieldEntry(coll, v, m, enc) in fields)
    && (forall i :: 0 <= i < |fields| ==> exists m :: m in doc.members && fields[i].key == FieldKey(coll, v, m.name) && fields[i].value == Stored(enc, m.value))
  }

  /** The field keys of a document's members, in document order. */
  function FieldKeys(coll: string, v: string, members: seq<Member>): seq<string>
  {
    seq(|members|, i requires 0 <= i < |members| => FieldKey(coll, v, members[i].name))
  }

  /**
   * Entries with distinct keys that are exactly the field keys of `doc`,
   * each holding its member's stored text, are `doc`'s field entries.
   */
  lemma FieldsListed(fields: seq<KV>, coll: string, v: string, doc: Document, enc: Encoding)
    requires DistinctKeys(fields)
    requires forall x :: x in KeyList(fields) <==> x in FieldKeys(coll, v, doc.members)
    requires forall i, j :: 0 <= i < |fields| && 0 <= j < |doc.members| && fields[i].key == FieldKey(coll, v, doc.members[j].name) ==>
      fields[i].value == Stored(enc, doc.members[j].value)
    ensures ListsFields(fields, coll, v, doc, enc)
  {
    var ks := KeyList(fields);
    var fks := FieldKeys(coll, v, doc.members);
    forall i | 0 <= i < |fields|
      ensures exists m :: m in doc.members && fields[i].key == FieldKey(coll, v, m.name) && fields[i].value == Stored(enc, m.value)
    {
      assert ks[i] in ks;
      var j :| 0 <= j < |fks| && fks[j] == ks[i];
      assert fields[i] == FieldEntry(coll, v, doc.members[j], enc);
    }
    forall m | m in doc.members ensures FieldEntry(coll, v, m, enc) in fields {
      var j :| 0 <= j < |doc.members| && doc.members[j] == m;
      assert fks[j] in fks;
      var i :| 0 <= i < |ks| && ks[i] == fks[j];
      assert fields[i] == FieldEntry(coll, v, m, enc);
    }
  }

  /**
   * A document's field entries, in whatever order they are read, rebuild
   * exactly when no member name is empty, and then into an object holding
   * exactly its members.
   */
  lemma RebuildMembers(coll: string, v: string, fields: seq<KV>, doc: Document, enc: Encoding)
    requires ListsFields(fields, coll, v, doc, enc)
    ensures Rebuild(coll, v, fields, enc).Ok? <==> forall m :: m in doc.members ==> m.name != []
    ensures Rebuild(coll, v, fields, enc).Ok? ==> HoldsMembers(Rebuild(coll, v, fields, enc).value, doc, enc)
  {
    if exists m :: m in doc.members && m.name == [] {
      var m :| m in doc.members && m.name == [];
      var i := ListedMember(coll, v, fields, doc, enc, m);
      RebuildFails(coll, v, fields, enc);
    } else {
      NamedMembersRebuild(coll, v, fields, doc, enc);
    }
  }

  /** A listed field entry is the entry of one of the document's members, and names it. */
  lemma ListedEntry(coll: string, v: string, fields: seq<KV>, doc: Document, enc: Encoding, i: nat) returns (m: Member)
    requires ListsFields(fields, coll, v, doc, enc) && i < |fields|
    ensures m in doc.members && fields[i] == FieldEntry(coll, v, m, enc) && FieldName(coll, v, fields[i]) == m.name
  {
    var e := fields[i];
    assert exists m :: m in doc.members && e.key == FieldKey(coll, v, m.name) && e.value == Stored(enc, m.value);
    m :| m in doc.members && e.key == FieldKey(coll, v, m.name) && e.value == Stored(enc, m.value);
    FieldNameRoundTrip(coll, v, m.name);
  }

  /** Every member of the document has its field entry listed, under its own name. */
  lemma ListedMember(coll: string, v: string, fields: seq<KV>, doc: Document, enc: Encoding, m: Member) returns (i: nat)
    requires ListsFields(fields, coll, v, doc, enc) && m in doc.members
    ensures i < |fields| && fields[i] == FieldEntry(coll, v, m, enc) && FieldName(coll, v, fields[i]) == m.name
  {
    var e := FieldEntry(coll, v, m, enc);
    assert e in fields;
    i :| 0 <= i < |fields| && fields[i] == e;
    FieldNameRoundTrip(coll, v, m.name);
  }

  /** Fields listing a document whose member names are all non-empty have distinct non-empty field names. */
  lemma ListedNames(coll: string, v: string, fields: seq<KV>, doc: Document, enc: Encoding)
    requires ListsFields(fields, coll, v, doc, enc)
    requires forall m :: m in doc.members ==> m.name != []
    ensures forall i :: 0 <= i < |fields| ==> FieldName(coll, v, fields[i]) != []
    ensures forall i, j :: 0 <= i < j < |fields| ==> FieldName(coll, v, fields[i]) != FieldName(coll, v, fields[j])
  {
    forall i | 0 <= i < |fields| ensures FieldName(coll, v, fields[i]) != [] {
      var m := ListedEntry(coll, v, fields, doc, enc, i);
    }
    forall i, j | 0 <= i < j < |fields| ensures FieldName(coll, v, fields[i]) != FieldName(coll, v, fields[j]) {
      var mi := ListedEntry(coll, v, fields, doc, enc, i);
      var mj := ListedEntry(coll, v, fields, doc, enc, j);
      assert fields[i].key != fields[j].key;
    }
  }

  /**
   * An object in which each listed field reads back under its name, and
   * nothing else is present, holds exactly the listed document's members.
   */
  lemma ListedHolds(obj: Object, coll: string, v: string, fields: seq<KV>, doc: Document, enc: Encoding)
    requires ListsFields(fields, coll, v, doc, enc)
    requires forall i :: 0 <= i < |fields| ==> Lookup(obj, FieldName(coll, v, fields[i])) == Some(Restored(enc, fields[i].value))
    requires forall n :: Lookup(obj, n).Some? ==> exists i :: 0 <= i < |fields| && FieldName(coll, v, fields[i]) == n
    ensures HoldsMembers(obj, doc, enc)
  {
    forall n | Lookup(obj, n).Some? ensures exists m :: m in doc.members && m.name == n {
      var i :| 0 <= i < |fields| && FieldName(coll, v, fields[i]) == n;
      var m := ListedEntry(coll, v, fields, doc, enc, i);
    }
    forall m {:trigger Lookup(obj, m.name)} | m in doc.members
      ensures Lookup(obj, m.name) == Some(Restored(enc, Stored(enc, m.value)))
    {
      var i := ListedMember(coll, v, fields, doc, enc, m);
    }
  }

  lemma NamedMembersRebuild(coll: string, v: string, fields: seq<KV>, doc: Document, enc: Encoding)
    requires ListsFields(fields, coll, v, doc, enc)
    requires forall m :: m in doc.members ==> m.name != []
    ensures Rebuild(coll, v, fields, enc).Ok?
    ensures HoldsMembers(Rebuild(coll, v, fields, enc).value, doc, enc)
  {
    ListedNames(coll, v, fields, doc, enc);
    RebuildLookup(coll, v, fields, enc);
    ListedHolds(Rebuild(coll, v, fields, enc).value, coll, v, fields, doc, enc);
  }

  /** The key and value of each scanned entry. */
  function EntryFields(es: seq<Entry>): seq<KV>
  {
    seq(|es|, i requires 0 <= i < |es| => KV(es[i].key, es[i].value))
  }

  /** The key and value of each sorted-set member. */
  function ZEntryFields(zs: seq<ZEntry>): seq<KV>
  {
    seq(|zs|, i requires 0 <= i < |zs| => KV(zs[i].key, zs[i].value))
  }

  /**
   * The object an index key leads to: the first page of the entries under
   * `coll.{v}`, where `v` is the index entry's current value, rebuilt.
   */
  function ObjectAt(keys: seq<string>, revs: map<string, seq<Revision>>, pageSize: nat,
                    coll: string, enc: Encoding, k: string): Result<Object, string>
  {
    var v := Current(revs, k).value;
    Rebuild(coll, v, EntryFields(Page(keys, revs, ObjectPrefix(coll, v), [], pageSize)), enc)
  }

  /** Every stored key with the object it leads to, or the error rebuilding it. */
  function Catalog(keys: seq<string>, revs: map<string, seq<Revision>>, pageSize: nat,
                   coll: string, enc: Encoding): map<string, Result<Object, string>>
  {
    CatalogOf(keys, revs, pageSize, coll, enc, keys)
  }

  /** The keys `ks` with the objects they lead to. */
  function CatalogOf(keys: seq<string>, revs: map<string, seq<Revision>>, pageSize: nat,
                     coll: string, enc: Encoding, ks: seq<string>): map<string, Result<Object, string>>
  {
    if ks == [] then map[]
    else CatalogOf(keys, revs, pageSize, coll, enc, ks[..|ks| - 1])[ks[|ks| - 1] := ObjectAt(keys, revs, pageSize, coll, enc, ks[|ks| - 1])]
  }

  lemma {:induction false} CatalogOfAt(keys: seq<string>, revs: map<string, seq<Revision>>, pageSize: nat,
                                       coll: string, enc: Encoding, ks: seq<string>, k: string)
    requires k in ks
    ensures var cat := CatalogOf(keys, revs, pageSize, coll, enc, ks);
      k in cat && cat[k] == ObjectAt(keys, revs, pageSize, coll, enc, k)
  {
    if k != ks[|ks| - 1] {
      assert k in ks[..|ks| - 1] by {
        var i :| 0 <= i < |ks| && ks[i] == k;
        assert ks[..|ks| - 1][i] == k;
      }
      CatalogOfAt(keys, revs, pageSize, coll, enc, ks[..|ks| - 1], k);
    }
  }

  /** Every key of `ks` leads to an object that rebuilt without error. */
  ghost predicate Rebuilt(cat: map<string, Result<Object, string>>, ks: seq<string>)
  {
    forall i :: 0 <= i < |ks| ==> ks[i] in cat && cat[ks[i]].Ok?
  }

  /**
   * An error Restore reports: a failed scan of the index or of an object,
   * with the call's text appended, or the error rebuilding the object of one
   * of the keys `ks`.
   */
  ghost predicate RestoreFailure(e: Error, cat: map<string, Result<Object, string>>, ks: seq<string>)
  {
    e.Failed? &&
    (|| Reports(e.message, "could not scan for objects, ")
     || Reports(e.message, "could not scan for object, ")
     || exists i :: 0 <= i < |ks| && ks[i] in cat && cat[ks[i]].Err? &&
          e.message == "could not restore object: " + cat[ks[i]].error)
  }

  /** An error about some keys is an error about any run of keys that holds them. */
  lemma RestoreFailureWithin(e: Error, cat: map<string, Result<Object, string>>, pre: seq<string>, ks: seq<string>, post: seq<string>)
    requires RestoreFailure(e, cat, ks)
    ensures RestoreFailure(e, cat, pre + ks + post)
  {
    var all := pre + ks + post;
    if exists i :: 0 <= i < |ks| && ks[i] in cat && cat[ks[i]].Err? && e.message == "could not restore object: " + cat[ks[i]].error {
      var i :| 0 <= i < |ks| && ks[i] in cat && cat[ks[i]].Err? && e.message == "could not restore object: " + cat[ks[i]].error;
      assert all[|pre| + i] == ks[i];
    }
  }

  /** An error about some keys is an error about those keys followed by more. */
  lemma RestoreFailureBefore(e: Error, cat: map<string, Result<Object, string>>, ks: seq<string>, post: seq<string>)
    requires RestoreFailure(e, cat, ks)
    ensures RestoreFailure(e, cat, ks + post)
  {
    RestoreFailureWithin(e, cat, [], ks, post);
    assert [] + ks + post == ks + post;
  }

  /** The objects the keys `ks` lead to, in order, looked up in a catalogue. */
  function ObjectsOf(cat: map<string, Result<Object, string>>, ks: seq<string>): (r: seq<Object>)
    ensures |r| == |ks|
  {
    if ks == [] then []
    else
      var k := ks[|ks| - 1];
      ObjectsOf(cat, ks[..|ks| - 1]) + [if k in cat && cat[k].Ok? then cat[k].value else []]
  }

  /** Position i of the result is the object the i-th key leads to. */
  lemma {:induction false} ObjectsOfIndex(cat: map<string, Result<Object, string>>, ks: seq<string>, i: nat)
    requires i < |ks| && ks[i] in cat && cat[ks[i]].Ok?
    ensures ObjectsOf(cat, ks)[i] == cat[ks[i]].value
  {
    if i < |ks| - 1 {
      ObjectsOfIndex(cat, ks[..|ks| - 1], i);
    }
  }

  /** One more key looked up: its object goes at the end. */
  lemma ObjectsOfSnoc(cat: map<string, Result<Object, string>>, ks: seq<string>, j: nat)
    requires j < |ks| && ks[j] in cat && cat[ks[j]].Ok?
    ensures ObjectsOf(cat, ks[..j + 1]) == ObjectsOf(cat, ks[..j]) + [cat[ks[j]].value]
  {
    assert ks[..j + 1][..j] == ks[..j];
  }

  /** Looking up two runs of keys one after the other looks up their concatenation. */
  lemma {:induction false} ObjectsOfAppend(cat: map<string, Result<Object, string>>, ks: seq<string>, more: seq<string>)
    ensures ObjectsOf(cat, ks + more) == ObjectsOf(cat, ks) + ObjectsOf(cat, more)
    decreases |more|
  {
    if more == [] {
      assert ks + more == ks;
    } else {
      var init := more[..|more| - 1];
      ObjectsOfAppend(cat, ks, init);
      assert (ks + more)[..|ks + more| - 1] == ks + init;
    }
  }

  /** One version as History reports it. */
  datatype Version = Version(obj: Object, txID: nat, revision: nat)

  /**
   * The object of the version whose text is `txText`: the first page of the
   * set `coll.pk.{v}.<txText>`, each member with its value as of its pinned
   * transaction, rebuilt.
   */
  function VersionObject(revs: map<string, seq<Revision>>, zsets: map<string, ZSet>, pageSize: nat,
                         coll: string, pk: string, v: string, txText: string, enc: Encoding): Result<Object, string>
  {
    var z := SetIn(zsets, VersionSet(coll, pk, v, txText));
    Rebuild(coll, v, ZEntryFields(Members(z.members, z.atTx, revs, pageSize)), enc)
  }

  /**
   * History in json.go: for each entry of the versions key, the object of
   * the version it names, the entry's text read back as the transaction id,
   * and the entry's revision. The first entry whose object does not rebuild
   * gives the rebuild error; a text that is not a decimal uint64 ends the
   * process.
   */
  function ParsedVersions(revs: map<string, seq<Revision>>, zsets: map<string, ZSet>, pageSize: nat,
                          coll: string, pk: string, v: string, es: seq<Entry>, enc: Encoding): Result<seq<Version>, Error>
  {
    if es == [] then Ok([])
    else
      var e := es[|es| - 1];
      match ParsedVersions(revs, zsets, pageSize, coll, pk, v, es[..|es| - 1], enc)
      case Err(err) => Err(err)
      case Ok(vs) =>
        match VersionObject(revs, zsets, pageSize, coll, pk, v, e.value, enc)
        case Err(m) => Err(Failed("could not restore object: " + m))
        case Ok(obj) =>
          match ParseUint(e.value)
          case None => Err(Fatal)
          case Some(tx) => Ok(vs + [Version(obj, tx, e.revision)])
  }

  /** Once the leading entries fail, History's result is that failure. */
  lemma {:induction false} ParsedVersionsKeepsError(revs: map<string, seq<Revision>>, zsets: map<string, ZSet>, pageSize: nat,
                                                    coll: string, pk: string, v: string, es: seq<Entry>, enc: Encoding, n: nat)
    requires n <= |es| && ParsedVersions(revs, zsets, pageSize, coll, pk, v, es[..n], enc).Err?
    ensures ParsedVersions(revs, zsets, pageSize, coll, pk, v, es, enc) == ParsedVersions(revs, zsets, pageSize, coll, pk, v, es[..n], enc)
    decreases |es|
  {
    if n < |es| {
      var init := es[..|es| - 1];
      assert init[..n] == es[..n];
      ParsedVersionsKeepsError(revs, zsets, pageSize, coll, pk, v, init, enc, n);
    } else {
      assert es[..n] == es;
    }
  }

  /** History's versions exist exactly when every entry's object rebuilds and every entry's text parses. */
  lemma {:induction false} ParsedVersionsOk(revs: map<string, seq<Revision>>, zsets: map<string, ZSet>, pageSize: nat,
                                            coll: string, pk: string, v: string, es: seq<Entry>, enc: Encoding)
    ensures ParsedVersions(revs, zsets, pageSize, coll, pk, v, es, enc).Ok? <==>
      forall i :: 0 <= i < |es| ==>
        VersionObject(revs, zsets, pageSize, coll, pk, v, es[i].value, enc).Ok? && ParseUint(es[i].value).Some?
  {
    if es != [] {
      var init := es[..|es| - 1];
      var e := es[|es| - 1];
      ParsedVersionsOk(revs, zsets, pageSize, coll, pk, v, init, enc);
      assert ParsedVersions(revs, zsets, pageSize, coll, pk, v, es, enc).Ok? <==>
        && ParsedVersions(revs, zsets, pageSize, coll, pk, v, init, enc).Ok?
        && VersionObject(revs, zsets, pageSize, coll, pk, v, e.value, enc).Ok?
        && ParseUint(e.value).Some?;
      assert es == init + [e];
    }
  }

  /**
   * History's versions are read entry by entry: the i-th version is the
   * object of the i-th entry's text, stamped with that text's value and the
   * entry's revision.
   */
  lemma {:induction false} ParsedVersionsAt(revs: map<string, seq<Revision>>, zsets: map<string, ZSet>, pageSize: nat,
                                            coll: string, pk: string, v: string, es: seq<Entry>, enc: Encoding)
    ensures ParsedVersions(revs, zsets, pageSize, coll, pk, v, es, enc).Ok? ==>
      var vs := ParsedVersions(revs, zsets, pageSize, coll, pk, v, es, enc).value;
      |vs| == |es| &&
      forall i :: 0 <= i < |es| ==>
        && VersionObject(revs, zsets, pageSize, coll, pk, v, es[i].value, enc) == Ok(vs[i].obj)
        && ParseUint(es[i].value) == Some(vs[i].txID)
        && vs[i].revision == es[i].revision
  {
    var r := ParsedVersions(revs, zsets, pageSize, coll, pk, v, es, enc);
    if es != [] && r.Ok? {
      var init := es[..|es| - 1];
      var e := es[|es| - 1];
      ParsedVersionsAt(revs, zsets, pageSize, coll, pk, v, init, enc);
      var p := ParsedVersions(revs, zsets, pageSize, coll, pk, v, init, enc);
      var obj := VersionObject(revs, zsets, pageSize, coll, pk, v, e.value, enc);
      assert p.Ok? && obj.Ok? && ParseUint(e.value).Some?;
      assert r.value == p.value + [Version(obj.value, ParseUint(e.value).value, e.revision)];
      forall i | 0 <= i < |init| ensures r.value[i] == p.value[i] && es[i] == init[i] {
      }
    }
  }

  /** History fails only by ending the process or with the rebuild error of some entry's object. */
  lemma {:induction false} ParsedVersionsFailure(revs: map<string, seq<Revision>>, zsets: map<string, ZSet>, pageSize: nat,
                                                 coll: string, pk: string, v: string, es: seq<Entry>, enc: Encoding)
    ensures ParsedVersions(revs, zsets, pageSize, coll, pk, v, es, enc).Err? ==>
      var err := ParsedVersions(revs, zsets, pageSize, coll, pk, v, es, enc).error;
      err == Fatal ||
      exists i :: 0 <= i < |es| && VersionObject(revs, zsets, pageSize, coll, pk, v, es[i].value, enc).Err? &&
        err == Failed("could not restore object: " + VersionObject(revs, zsets, pageSize, coll, pk, v, es[i].value, enc).error)
  {
    var r := ParsedVersions(revs, zsets, pageSize, coll, pk, v, es, enc);
    if r.Err? && r.error != Fatal {
      var i := ParsedVersionsFailing(revs, zsets, pageSize, coll, pk, v, es, enc);
    }
  }

  /** The entry whose object's rebuild error a failed ParsedVersions reports. */
  lemma {:induction false} ParsedVersionsFailing(revs: map<string, seq<Revision>>, zsets: map<string, ZSet>, pageSize: nat,
      coll: string, pk: string, v: string, es: seq<Entry>, enc: Encoding) returns (i: nat)
    requires ParsedVersions(revs, zsets, pageSize, coll, pk, v, es, enc).Err? && ParsedVersions(revs, zsets, pageSize, coll, pk, v, es, enc).error != Fatal
    ensures i < |es| && VersionObject(revs, zsets, pageSize, coll, pk, v, es[i].value, enc).Err?
    ensures ParsedVersions(revs, zsets, pageSize, coll, pk, v, es, enc).error
      == Failed("could not restore object: " + VersionObject(revs, zsets, pageSize, coll, pk, v, es[i].value, enc).error)
  {
    var r := ParsedVersions(revs, zsets, pageSize, coll, pk, v, es, enc);
    var init := es[..|es| - 1];
    var e := es[|es| - 1];
    var p := ParsedVersions(revs, zsets, pageSize, coll, pk, v, init, enc);
    if p.Err? {
      assert r == p;
      i := ParsedVersionsFailing(revs, zsets, pageSize, coll, pk, v, init, enc);
      assert es[i] == init[i];
    } else {
      i := |es| - 1;
      var obj := VersionObject(revs, zsets, pageSize, coll, pk, v, e.value, enc);
      assert obj.Err? && r.error == Failed("could not restore object: " + obj.error);
    }
  }


  /**
   * RestoreHistory in audittrailKVjson.go: for each entry of the versions key,
   * the object of the version it names with the entry's own transaction and
   * revision; the first entry whose object does not rebuild gives the
   * rebuild error.
   */
  function EntryVersions(revs: map<string, seq<Revision>>, zsets: map<string, ZSet>, pageSize: nat,
                         coll: string, pk: string, v: string, es: seq<Entry>, enc: Encoding): Result<seq<Version>, Error>
  {
    if es == [] then Ok([])
    else
      var e := es[|es| - 1];
      match EntryVersions(revs, zsets, pageSize, coll, pk, v, es[..|es| - 1], enc)
      case Err(err) => Err(err)
      case Ok(vs) =>
        match VersionObject(revs, zsets, pageSize, coll, pk, v, e.value, enc)
        case Err(m) => Err(Failed("could not restore object: " + m))
        case Ok(obj) => Ok(vs + [Version(obj, e.tx, e.revision)])
  }

  /** Once the leading entries fail, RestoreHistory's result is that failure. */
  lemma {:induction false} EntryVersionsKeepsError(revs: map<string, seq<Revision>>, zsets: map<string, ZSet>, pageSize: nat,
                                                   coll: string, pk: string, v: string, es: seq<Entry>, enc: Encoding, n: nat)
    requires n <= |es| && EntryVersions(revs, zsets, pageSize, coll, pk, v, es[..n], enc).Err?
    ensures EntryVersions(revs, zsets, pageSize, coll, pk, v, es, enc) == EntryVersions(revs, zsets, pageSize, coll, pk, v, es[..n], enc)
    decreases |es|
  {
    if n < |es| {
      var init := es[..|es| - 1];
      assert init[..n] == es[..n];
      EntryVersionsKeepsError(revs, zsets, pageSize, coll, pk, v, init, enc, n);
    } else {
      assert es[..n] == es;
    }
  }

  /** RestoreHistory's versions exist exactly when every entry's object rebuilds. */
  lemma {:induction false} EntryVersionsOk(revs: map<string, seq<Revision>>, zsets: map<string, ZSet>, pageSize: nat,
                                           coll: string, pk: string, v: string, es: seq<Entry>, enc: Encoding)
    ensures EntryVersions(revs, zsets, pageSize, coll, pk, v, es, enc).Ok? <==>
      forall i :: 0 <= i < |es| ==> VersionObject(revs, zsets, pageSize, coll, pk, v, es[i].value, enc).Ok?
  {
    if es != [] {
      var init := es[..|es| - 1];
      var e := es[|es| - 1];
      EntryVersionsOk(revs, zsets, pageSize, coll, pk, v, init, enc);
      assert EntryVersions(revs, zsets, pageSize, coll, pk, v, es, enc).Ok? <==>
        EntryVersions(revs, zsets, pageSize, coll, pk, v, init, enc).Ok? && VersionObject(revs, zsets, pageSize, coll, pk, v, e.value, enc).Ok?;
      assert es == init + [e];
    }
  }

  /**
   * RestoreHistory's i-th version is the object of the i-th entry's text
   * with the entry's own transaction and revision.
   */
  lemma {:induction false} EntryVersionsAt(revs: map<string, seq<Revision>>, zsets: map<string, ZSet>, pageSize: nat,
                                           coll: string, pk: string, v: string, es: seq<Entry>, enc: Encoding)
    ensures EntryVersions(revs, zsets, pageSize, coll, pk, v, es, enc).Ok? ==>
      var vs := EntryVersions(revs, zsets, pageSize, coll, pk, v, es, enc).value;
      |vs| == |es| &&
      forall i :: 0 <= i < |es| ==>
        && VersionObject(revs, zsets, pageSize, coll, pk, v, es[i].value, enc) == Ok(vs[i].obj)
        && vs[i].txID == es[i].tx
        && vs[i].revision == es[i].revision
  {
    var r := EntryVersions(revs, zsets, pageSize, coll, pk, v, es, enc);
    if es != [] && r.Ok? {
      var init := es[..|es| - 1];
      var e := es[|es| - 1];
      EntryVersionsAt(revs, zsets, pageSize, coll, pk, v, init, enc);
      var p := EntryVersions(revs, zsets, pageSize, coll, pk, v, init, enc);
      var obj := VersionObject(revs, zsets, pageSize, coll, pk, v, e.value, enc);
      assert p.Ok? && obj.Ok?;
      assert r.value == p.value + [Version(obj.value, e.tx, e.revision)];
      forall i | 0 <= i < |init| ensures r.value[i] == p.value[i] && es[i] == init[i] {
      }
    }
  }

  /** RestoreHistory fails only with the rebuild error of some entry's object. */
  lemma {:induction false} EntryVersionsFailure(revs: map<string, seq<Revision>>, zsets: map<string, ZSet>, pageSize: nat,
                                                coll: string, pk: string, v: string, es: seq<Entry>, enc: Encoding)
    ensures EntryVersions(revs, zsets, pageSize, coll, pk, v, es, enc).Err? ==>
      var err := EntryVersions(revs, zsets, pageSize, coll, pk, v, es, enc).error;
      exists i :: 0 <= i < |es| && VersionObject(revs, zsets, pageSize, coll, pk, v, es[i].value, enc).Err? &&
        err == Failed("could not restore object: " + VersionObject(revs, zsets, pageSize, coll, pk, v, es[i].value, enc).error)
  {
    var r := EntryVersions(revs, zsets, pageSize, coll, pk, v, es, enc);
    if r.Err? {
      var i := EntryVersionsFailing(revs, zsets, pageSize, coll, pk, v, es, enc);
    }
  }

  /** The entry whose object's rebuild error a failed EntryVersions reports. */
  lemma {:induction false} EntryVersionsFailing(revs: map<string, seq<Revision>>, zsets: map<string, ZSet>, pageSize: nat,
      coll: string, pk: string, v: string, es: seq<Entry>, enc: Encoding) returns (i: nat)
    requires EntryVersions(revs, zsets, pageSize, coll, pk, v, es, enc).Err?
    ensures i < |es| && VersionObject(revs, zsets, pageSize, coll, pk, v, es[i].value, enc).Err?
    ensures EntryVersions(revs, zsets, pageSize, coll, pk, v, es, enc).error
      == Failed("could not restore object: " + VersionObject(revs, zsets, pageSize, coll, pk, v, es[i].value, enc).error)
  {
    var r := EntryVersions(revs, zsets, pageSize, coll, pk, v, es, enc);
    var init := es[..|es| - 1];
    var e := es[|es| - 1];
    var p := EntryVersions(revs, zsets, pageSize, coll, pk, v, init, enc);
    if p.Err? {
      assert r == p;
      i := EntryVersionsFailing(revs, zsets, pageSize, coll, pk, v, init, enc);
      assert es[i] == init[i];
    } else {
      i := |es| - 1;
      var obj := VersionObject(revs, zsets, pageSize, coll, pk, v, e.value, enc);
      assert obj.Err? && r.error == Failed("could not restore object: " + obj.error);
    }
  }


  /**
   * StoreBytes: write the index and field entries in one transaction, add
   * every field key to that transaction's set, then record the transaction
   * in the versions key. A failure after the first write ends the process.
   */
  method StoreObject(client: Client, coll: string, keys: seq<string>, doc: Document, enc: Encoding)
    returns (r: Result<nat, Error>)
    requires client.Valid()
    modifies client
    ensures client.Valid()
    ensures Request(coll, keys, doc, enc).Err? ==>
      r == Err(Request(coll, keys, doc, enc).error) && unchanged(client)
    ensures r.Err? && r.error != Fatal ==> unchanged(client)
    ensures Request(coll, keys, doc, enc).Ok? && r.Err? && r.error != Fatal ==>
      r.error.Failed? && Reports(r.error.message, "could not store object: ")
    ensures r.Ok? ==> Request(coll, keys, doc, enc).Ok? && Acceptable(Request(coll, keys, doc, enc).value)
    ensures r.Ok? ==> r.value == old(client.db.lastTx) + 1
    ensures r.Ok? ==> client.db == StoreAfter(old(client.db), coll, keys, doc, enc)
  {
    var req := BuildRequest(coll, keys, doc, enc);
    if req.Err? {
      r := Err(req.error);
    } else {
      RequestShape(coll, keys, doc, enc);
      r := CommitObject(client, coll, keys[0], doc.paths[keys[0]].str, req.value, |keys|);
    }
  }

  /**
   * The store after StoreBytes succeeded: the batch at transaction t, one
   * ZAddAt per field entry (transactions t+1, t+2, ...), then the versions key
   * recording t.
   */
  ghost function StoreAfter(s: Snapshot, coll: string, keys: seq<string>, doc: Document, enc: Encoding): Snapshot
    requires Request(coll, keys, doc, enc).Ok?
  {
    RequestShape(coll, keys, doc, enc);
    CommittedAfter(s, coll, keys[0], doc.paths[keys[0]].str, Request(coll, keys, doc, enc).value, |keys|)
  }

  /** The store after the batch `kvs` and the version record for its entries from `from` on. */
  ghost function CommittedAfter(s: Snapshot, coll: string, pk: string, v: string, kvs: seq<KV>, from: nat): Snapshot
    requires from <= |kvs|
  {
    RecordedAfter(Committed(s, kvs), coll, pk, v, kvs, from, s.lastTx + 1)
  }

  /** Recording the version leaves the history the batch gave every other key as it was. */
  lemma RecordKeepsHistory(s: Snapshot, coll: string, pk: string, v: string, kvs: seq<KV>, from: nat, k: string)
    requires from <= |kvs| && k in KeysOf(kvs) && k != VersionsKey(coll, pk, v)
    ensures var after := CommittedAfter(s, coll, pk, v, kvs, from);
      k in after.revs && after.revs[k] == AppendAll(s.revs, kvs, s.lastTx + 1)[k]
  {
    var t := s.lastTx + 1;
    var vk := VersionsKey(coll, pk, v);
    var c1 := Committed(s, kvs);
    var pinned := Pinned(c1, VersionSet(coll, pk, v, Format(t)), KeyList(kvs)[from..], t);
    assert k !in KeysOf([KV(vk, Format(t))]);
    assert k in c1.revs;
    AppendAllOther(pinned.revs, [KV(vk, Format(t))], pinned.lastTx + 1, k);
  }

  /**
   * After the batch and the version record, a batch entry other than the
   * versions key holds its value, written at the batch's transaction.
   */
  lemma BatchEntryRecorded(s: Snapshot, coll: string, pk: string, v: string, kvs: seq<KV>, from: nat, i: nat)
    requires Acceptable(kvs) && from <= |kvs| && i < |kvs|
    requires kvs[i].key != VersionsKey(coll, pk, v)
    ensures var after := CommittedAfter(s, coll, pk, v, kvs, from);
      && kvs[i].key in after.revs
      && Current(after.revs, kvs[i].key).value == kvs[i].value
      && ValueAt(after.revs[kvs[i].key], s.lastTx + 1) == Some(kvs[i].value)
  {
    CurrentAfterBatch(s.revs, kvs, s.lastTx + 1, i);
    RecordKeepsHistory(s, coll, pk, v, kvs, from, kvs[i].key);
  }

  /**
   * After the batch and the version record, the key list holds what was
   * there, the batch's keys and the versions key, and stays ascending.
   */
  lemma BatchKeysRecorded(s: Snapshot, coll: string, pk: string, v: string, kvs: seq<KV>, from: nat)
    requires from <= |kvs|
    ensures var after := CommittedAfter(s, coll, pk, v, kvs, from);
      && (forall x :: x in after.keys <==> x in s.keys || x in KeysOf(kvs) || x == VersionsKey(coll, pk, v))
      && (Sorted(s.keys) ==> Sorted(after.keys))
  {
    var t := s.lastTx + 1;
    var vk := VersionsKey(coll, pk, v);
    var c1 := Committed(s, kvs);
    var pinned := Pinned(c1, VersionSet(coll, pk, v, Format(t)), KeyList(kvs)[from..], t);
    assert CommittedAfter(s, coll, pk, v, kvs, from) == Committed(pinned, [KV(vk, Format(t))]);
    InsertAllMembers(s.keys, kvs);
    InsertAllMembers(c1.keys, [KV(vk, Format(t))]);
    assert KeysOf([KV(vk, Format(t))]) == {vk};
    if Sorted(s.keys) {
      InsertAllSorted(s.keys, kvs);
      InsertAllSorted(c1.keys, [KV(vk, Format(t))]);
    }
  }

  /**
   * After StoreBytes the versions key's current entry holds the decimal text
   * of the batch's transaction t, and was itself written after the batch and
   * one ZAddAt per member, at t + |members| + 1.
   */
  lemma VersionRecorded(s: Snapshot, coll: string, keys: seq<string>, doc: Document, enc: Encoding)
    requires Request(coll, keys, doc, enc).Ok? && Acceptable(Request(coll, keys, doc, enc).value)
    ensures var vk := VersionsKey(coll, keys[0], doc.paths[keys[0]].str);
      var after := StoreAfter(s, coll, keys, doc, enc);
      var t := s.lastTx + 1;
      && vk in after.revs && |after.revs[vk]| > 0
      && Current(after.revs, vk) == Entry(vk, Format(t), t + |doc.members| + 1, |after.revs[vk]|)
  {
    RequestShape(coll, keys, doc, enc);
    var kvs := Request(coll, keys, doc, enc).value;
    var v := doc.paths[keys[0]].str;
    var t := s.lastTx + 1;
    var vk := VersionsKey(coll, keys[0], v);
    var pinned := Pinned(Committed(s, kvs), VersionSet(coll, keys[0], v, Format(t)), KeyList(kvs)[|keys|..], t);
    assert pinned.lastTx == t + |doc.members|;
    assert Acceptable([KV(vk, Format(t))]);
    CurrentAfterBatch(pinned.revs, [KV(vk, Format(t))], pinned.lastTx + 1, 0);
  }

  /** StoreBytes after the batch was built: send it, then record the version. */
  method CommitObject(client: Client, coll: string, pk: string, v: string, kvs: seq<KV>, from: nat)
    returns (r: Result<nat, Error>)
    requires client.Valid() && from <= |kvs|
    modifies client
    ensures client.Valid()
    ensures r.Err? && r.error != Fatal ==> r.error.Failed? && Reports(r.error.message, "could not store object: ") && unchanged(client)
    ensures r.Ok? ==> Acceptable(kvs) && r.value == old(client.db.lastTx) + 1
    ensures r.Ok? ==> client.db == CommittedAfter(old(client.db), coll, pk, v, kvs, from)
  {
    var res := client.SetAll(kvs);
    if res.Err? {
      r := Err(Failed("could not store object: " + Describe(res.error)));
    } else {
      r := RecordVersion(client, coll, pk, v, kvs, from, res.value);
    }
  }

  /** The store after the keys `ks` were pinned at `tx` in the set `name`, one transaction each. */
  ghost function Pinned(s: Snapshot, name: string, ks: seq<string>, tx: nat): Snapshot
  {
    s.(zsets := WithSet(s.zsets, name, ks, tx), lastTx := s.lastTx + |ks|)
  }

  /** The store after the field keys were pinned in the version's set and the versions key recorded `tx`. */
  ghost function RecordedAfter(s: Snapshot, coll: string, pk: string, v: string, kvs: seq<KV>, from: nat, tx: nat): Snapshot
    requires from <= |kvs|
  {
    var pinned := Pinned(s, VersionSet(coll, pk, v, Format(tx)), KeyList(kvs)[from..], tx);
    Committed(pinned, [KV(VersionsKey(coll, pk, v), Format(tx))])
  }

  /** StoreBytes after the batch: pin the field entries in the version's set, then record the version. */
  method RecordVersion(client: Client, coll: string, pk: string, v: string, kvs: seq<KV>, from: nat, tx: nat)
    returns (r: Result<nat, Error>)
    requires client.Valid() && from <= |kvs|
    modifies client
    ensures client.Valid()
    ensures r.Ok? ==> r.value == tx
    ensures r.Ok? ==> client.db == RecordedAfter(old(client.db), coll, pk, v, kvs, from, tx)
    ensures r.Err? ==> r.error == Fatal
  {
    var pinned := PinFields(client, VersionSet(coll, pk, v, Format(tx)), kvs, from, tx);
    r := Err(Fatal);
    if pinned.Ok? {
      var w := client.Set(VersionsKey(coll, pk, v), Format(tx));
      if w.Ok? {
        r := Ok(tx);
      }
    }
  }

  /** StoreBytes' first two loops: the index entries, then one entry per member. */
  method BuildRequest(coll: string, keys: seq<string>, doc: Document, enc: Encoding) returns (r: Result<seq<KV>, Error>)
    ensures r == Request(coll, keys, doc, enc)
  {
    if |keys| == 0 {
      return Err(Failed("primary key is mandataory"));
    }
    var pk := Get(doc, keys[0]);
    if pk.None? {
      return Err(Failed("missing primary key in object"));
    }
    var v := pk.value.str;
    var kvs := [KV(IndexKey(coll, keys[0], v), v)];
    var i := 1;
    while i < |keys|
      invariant 1 <= i <= |keys|
      invariant forall j :: 0 <= j < i ==> keys[j] in doc.paths
      invariant |kvs| == i
      invariant forall j :: 0 <= j < i ==> kvs[j] == IndexEntry(coll, keys, doc, v, j)
    {
      var sk := Get(doc, keys[i]);
      if sk.None? {
        assert keys[1..][i - 1] !in doc.paths;
        return Err(Failed("missing secondary key in object"));
      }
      kvs := kvs + [KV(SecondaryKey(coll, keys[i], sk.value.str, v), v)];
      i := i + 1;
    }
    assert AllPresent(doc, keys[1..]) by {
      forall j | 0 <= j < |keys[1..]| ensures keys[1..][j] in doc.paths {
        assert keys[1..][j] == keys[j + 1];
      }
    }
    for m := 0 to |doc.members|
      invariant |kvs| == |keys| + m
      invariant forall j :: 0 <= j < |keys| ==> kvs[j] == IndexEntry(coll, keys, doc, v, j)
      invariant forall j :: 0 <= j < m ==> kvs[|keys| + j] == FieldEntry(coll, v, doc.members[j], enc)
    {
      kvs := kvs + [FieldEntry(coll, v, doc.members[m], enc)];
    }
    assert kvs == Request(coll, keys, doc, enc).value by {
      var w := Request(coll, keys, doc, enc).value;
      assert |w| == |kvs|;
      forall j | 0 <= j < |kvs| ensures kvs[j] == w[j] {
        if j >= |keys| {
          assert w[j] == FieldEntries(coll, v, doc.members, enc)[j - |keys|];
        }
      }
    }
    r := Ok(kvs);
  }

  /**
   * StoreBytes' third loop: every entry from position `from` on (the field
   * entries) joins the set `setName`, pinned at `tx`, one ZAddAt each.
   */
  method PinFields(client: Client, setName: string, kvs: seq<KV>, from: nat, tx: nat) returns (r: Result<(), Error>)
    requires client.Valid() && from <= |kvs|
    modifies client
    ensures client.Valid()
    ensures r.Ok? ==> client.db == Pinned(old(client.db), setName, KeyList(kvs)[from..], tx)
    ensures r.Err? ==> r.error == Fatal
  {
    ghost var s0 := client.db;
    r := Ok(());
    // The entries before `from` (the index entries) are skipped.
    var n := from;
    while n < |kvs|
      invariant from <= n <= |kvs|
      invariant client.Valid()
      invariant client.db == Pinned(s0, setName, KeyList(kvs)[from..n], tx)
    {
      var z := client.ZAddAt(setName, kvs[n].key, tx);
      if z.Err? {
        r := Err(Fatal);
        break;
      }
      WithSetSnoc(s0.zsets, setName, KeyList(kvs)[from..n], kvs[n].key, tx);
      KeyListSnoc(kvs, from, n);
      n := n + 1;
    }
    assert r.Ok? ==> KeyList(kvs)[from..n] == KeyList(kvs)[from..];
  }

  /** Adding one more key to the set is one more ZAddAt. */
  lemma WithSetSnoc(zsets: map<string, ZSet>, name: string, ks: seq<string>, k: string, tx: nat)
    ensures WithSet(zsets, name, ks + [k], tx) ==
      WithSet(zsets, name, ks, tx)[name := AddMember(SetIn(WithSet(zsets, name, ks, tx), name), k, tx)]
  {
    assert (ks + [k])[..|ks|] == ks;
  }

  lemma KeyListSnoc(kvs: seq<KV>, from: nat, n: nat)
    requires from <= n < |kvs|
    ensures KeyList(kvs)[from..n + 1] == KeyList(kvs)[from..n] + [kvs[n].key]
  {
  }

  /** Rebuild's loop: write each field entry back in order, stopping at the first the writer refuses. */
  method RebuildObject(coll: string, v: string, fields: seq<KV>, enc: Encoding) returns (r: Result<Object, string>)
    ensures r == Rebuild(coll, v, fields, enc)
  {
    var obj: Object := [];
    for i := 0 to |fields|
      invariant Rebuild(coll, v, fields[..i], enc) == Ok(obj)
    {
      assert fields[..i + 1][..i] == fields[..i];
      var next := SetPath(obj, FieldName(coll, v, fields[i]), Restored(enc, fields[i].value));
      if next.Err? {
        RebuildKeepsError(coll, v, fields, enc, i + 1);
        return Err(next.error);
      }
      obj := next.value;
    }
    assert fields[..|fields|] == fields;
    r := Ok(obj);
  }

  /**
   * Restore(key, condition): the object behind every index entry under field
   * `key` whose value starts with `condition`, in key order, paging through
   * the index 999 entries at a time; it fails on a failed scan or on the
   * first object that does not rebuild.
   */
  method RestoreObjects(client: Client, coll: string, key: string, condition: string, enc: Encoding)
    returns (r: Result<seq<Object>, Error>)
    requires client.Valid()
    ensures var cat := Catalog(client.db.keys, client.db.revs, client.pageSize, coll, enc);
      var all := Matching(client.db.keys, ScanPrefix(coll, key, condition), []);
      && (r.Ok? ==> Rebuilt(cat, all) && r.value == ObjectsOf(cat, all))
      && (r.Err? ==> RestoreFailure(r.error, cat, all))
  {
    var prefix := ScanPrefix(coll, key, condition);
    ghost var cat := Catalog(client.db.keys, client.db.revs, client.pageSize, coll, enc);
    ghost var all := Matching(client.db.keys, prefix, []);
    ghost var ks: seq<string> := [];
    var seekKey: string := [];
    var objects: seq<Object> := [];
    while true
      invariant all == ks + Matching(client.db.keys, prefix, seekKey)
      invariant Rebuilt(cat, ks) && objects == ObjectsOf(cat, ks)
      decreases |Matching(client.db.keys, prefix, seekKey)|
    {
      var got, entries, pk := RestoreNext(client, coll, enc, prefix, seekKey, cat);
      if got.Err? {
        RestoreFailureWithin(got.error, cat, ks, Matching(client.db.keys, prefix, seekKey), []);
        assert ks + Matching(client.db.keys, prefix, seekKey) + [] == all;
        return got;
      }
      if |entries| == 0 {
        assert ks + [] == ks;
        break;
      }
      RestoreAdvance(cat, all, ks, objects, pk, got.value, Matching(client.db.keys, prefix, seekKey),
                     Matching(client.db.keys, prefix, entries[|entries| - 1].key));
      seekKey := entries[|entries| - 1].key;
      objects := objects + got.value;
      ks := ks + pk;
    }
    r := Ok(objects);
  }

  /** A non-empty page splits the listing after `seek` at the page's last key. */
  lemma PageSplit(keys: seq<string>, revs: map<string, seq<Revision>>, prefix: string, seek: string,
                  entries: seq<Entry>) returns (pk: seq<string>)
    requires WellFormed(keys, revs)
    requires entries == Page(keys, revs, prefix, seek, 999) && entries != []
    ensures CurrentOf(revs, pk, entries)
    ensures Matching(keys, prefix, seek) == pk + Matching(keys, prefix, entries[|entries| - 1].key)
  {
    var all := Matching(keys, prefix, seek);
    PageStep(keys, revs, prefix, all, 0, seek, entries);
    pk := all[..|entries|];
    assert all == pk + all[|entries|..];
  }

  /** Restore's loop invariant carried over one page of keys `pk`. */
  lemma RestoreAdvance(cat: map<string, Result<Object, string>>, all: seq<string>, ks: seq<string>, objects: seq<Object>,
                       pk: seq<string>, got: seq<Object>, rest: seq<string>, rest': seq<string>)
    requires all == ks + rest && rest == pk + rest'
    requires Rebuilt(cat, ks) && Rebuilt(cat, pk)
    requires objects == ObjectsOf(cat, ks) && got == ObjectsOf(cat, pk)
    ensures all == (ks + pk) + rest' && objects + got == ObjectsOf(cat, ks + pk)
    ensures Rebuilt(cat, ks + pk)
  {
    ObjectsOfAppend(cat, ks, pk);
    forall i | 0 <= i < |ks + pk| ensures (ks + pk)[i] in cat && cat[(ks + pk)[i]].Ok? {
      if i >= |ks| {
        assert (ks + pk)[i] == pk[i - |ks|];
      }
    }
  }

  /**
   * One round of Restore's paging: scan the next 999 index entries after
   * `seek` and rebuild the objects of the index keys `pk` they were read
   * under; the listing after `seek` is `pk` and then the listing after the
   * last of them.
   */
  method RestoreNext(client: Client, coll: string, enc: Encoding, prefix: string, seek: string,
                     ghost cat: map<string, Result<Object, string>>)
    returns (r: Result<seq<Object>, Error>, entries: seq<Entry>, ghost pk: seq<string>)
    requires client.Valid() && cat == Catalog(client.db.keys, client.db.revs, client.pageSize, coll, enc)
    ensures r.Ok? && entries == [] ==> Matching(client.db.keys, prefix, seek) == []
    ensures r.Ok? && entries != [] ==>
      Matching(client.db.keys, prefix, seek) == pk + Matching(client.db.keys, prefix, entries[|entries| - 1].key)
    ensures r.Ok? && entries != [] ==> pk != []
    ensures r.Ok? ==> Rebuilt(cat, pk) && r.value == ObjectsOf(cat, pk)
    ensures r.Err? ==> RestoreFailure(r.error, cat, Matching(client.db.keys, prefix, seek))
  {
    pk := [];
    var page := client.Scan(prefix, seek, 999);
    if page.Err? {
      return Err(Failed("could not scan for objects, " + Describe(page.error))), [], [];
    }
    entries := page.value;
    if |entries| == 0 {
      return Ok([]), [], [];
    }
    pk := PageSplit(client.db.keys, client.db.revs, prefix, seek, entries);
    r := RestorePage(client, coll, enc, pk, entries);
    if r.Err? {
      RestoreFailureBefore(r.error, cat, pk, Matching(client.db.keys, prefix, entries[|entries| - 1].key));
    }
  }

  /**
   * The inner loop of Restore: rebuild the object each index entry of one
   * page names; `ks` are the index keys the page's entries were read under.
   */
  method RestorePage(client: Client, coll: string, enc: Encoding, ghost ks: seq<string>, entries: seq<Entry>)
    returns (r: Result<seq<Object>, Error>)
    requires client.Valid()
    requires CurrentOf(client.db.revs, ks, entries)
    ensures var cat := Catalog(client.db.keys, client.db.revs, client.pageSize, coll, enc);
      && (r.Ok? ==> Rebuilt(cat, ks) && r.value == ObjectsOf(cat, ks))
      && (r.Err? ==> RestoreFailure(r.error, cat, ks))
  {
    ghost var cat := Catalog(client.db.keys, client.db.revs, client.pageSize, coll, enc);
    var objects: seq<Object> := [];
    for j := 0 to |entries|
      invariant Rebuilt(cat, ks[..j]) && objects == ObjectsOf(cat, ks[..j])
    {
      CurrentOfAt(client.db.revs, ks, entries, j);
      var got := RestoreOne(client, coll, enc, ks[j], entries[j].value);
      if got.Err? {
        PageFailure(got.error, cat, ks, j);
        return Err(got.error);
      }
      PageAdvance(cat, ks, j, objects, got.value);
      objects := objects + [got.value];
    }
    assert ks[..|entries|] == ks;
    r := Ok(objects);
  }

  /** A failure rebuilding the object of the j-th key is a failure of the page. */
  lemma PageFailure(e: Error, cat: map<string, Result<Object, string>>, ks: seq<string>, j: nat)
    requires j < |ks| && e.Failed?
    requires || Reports(e.message, "could not scan for object, ")
             || (ks[j] in cat && cat[ks[j]].Err? && e.message == "could not restore object: " + cat[ks[j]].error)
    ensures RestoreFailure(e, cat, ks)
  {
  }

  /** The page loop's invariant carried over the j-th key, whose object rebuilt as `o`. */
  lemma PageAdvance(cat: map<string, Result<Object, string>>, ks: seq<string>, j: nat, objects: seq<Object>, o: Object)
    requires j < |ks| && ks[j] in cat && cat[ks[j]] == Ok(o)
    requires Rebuilt(cat, ks[..j]) && objects == ObjectsOf(cat, ks[..j])
    ensures Rebuilt(cat, ks[..j + 1]) && objects + [o] == ObjectsOf(cat, ks[..j + 1])
  {
    ObjectsOfSnoc(cat, ks, j);
    assert forall i :: 0 <= i < j ==> ks[..j + 1][i] == ks[..j][i];
  }

  /**
   * Restore's innermost step: fetch the field entries under `coll.{v}` and
   * rebuild the object index key `k` leads to; a failed scan or a refused
   * field is the error.
   */
  method RestoreOne(client: Client, coll: string, enc: Encoding, ghost k: string, v: string) returns (r: Result<Object, Error>)
    requires client.Valid()
    requires k in client.db.revs && v == Current(client.db.revs, k).value
    ensures var cat := Catalog(client.db.keys, client.db.revs, client.pageSize, coll, enc);
      && k in cat
      && (r.Ok? ==> cat[k] == Ok(r.value))
      && (cat[k].Err? ==> r.Err?)
      && (r.Err? ==>
            && r.error.Failed?
            && (|| Reports(r.error.message, "could not scan for object, ")
                || (cat[k].Err? && r.error.message == "could not restore object: " + cat[k].error)))
  {
    CatalogOfAt(client.db.keys, client.db.revs, client.pageSize, coll, enc, client.db.keys, k);
    var fields := client.Scan(ObjectPrefix(coll, v), [], 0);
    if fields.Err? {
      return Err(Failed("could not scan for object, " + Describe(fields.error)));
    }
    var obj := RebuildObject(coll, v, EntryFields(fields.value), enc);
    if obj.Err? {
      return Err(Failed("could not restore object: " + obj.error));
    }
    r := Ok(obj.value);
  }

  /**
   * The object of one version, read through its set: a failed scan ends the
   * process, a refused field is the error.
   */
  method ReadVersion(client: Client, coll: string, pk: string, v: string, txText: string, enc: Encoding)
    returns (r: Result<Object, Error>)
    requires client.Valid()
    ensures var obj := VersionObject(client.db.revs, client.db.zsets, client.pageSize, coll, pk, v, txText, enc);
      && (r.Ok? ==> obj == Ok(r.value))
      && (obj.Err? ==> r.Err?)
      && (r.Err? ==> r.error == Fatal || (obj.Err? && r.error == Failed("could not restore object: " + obj.error)))
  {
    var ze := client.ZScan(VersionSet(coll, pk, v, txText));
    if ze.Err? {
      return Err(Fatal);
    }
    var obj := RebuildObject(coll, v, ZEntryFields(ze.value), enc);
    if obj.Err? {
      return Err(Failed("could not restore object: " + obj.error));
    }
    r := Ok(obj.value);
  }

  /**
   * A missing field is reported before anything is written: an empty key
   * list, a missing primary field and a missing secondary field are exactly
   * the requests that fail.
   */
  lemma RequestFails(coll: string, keys: seq<string>, doc: Document, enc: Encoding)
    ensures Request(coll, keys, doc, enc).Err? <==>
      |keys| == 0 || exists j :: 0 <= j < |keys| && keys[j] !in doc.paths
    ensures |keys| > 0 && keys[0] !in doc.paths ==>
      Request(coll, keys, doc, enc) == Err(Failed("missing primary key in object"))
  {
    if |keys| > 0 && keys[0] in doc.paths {
      if !AllPresent(doc, keys[1..]) {
        var j :| 0 <= j < |keys[1..]| && keys[1..][j] !in doc.paths;
        assert keys[j + 1] !in doc.paths;
      } else {
        forall j | 0 <= j < |keys| ensures keys[j] in doc.paths {
          if j > 0 { assert keys[1..][j - 1] == keys[j]; }
        }
      }
    }
  }

  /**
   * The batch holds |keys| index entries, primary first, every one holding
   * the primary-key text, then one entry per top-level member in document
   * order; the entries from position |keys| on are exactly the field keys.
   */
  lemma RequestShape(coll: string, keys: seq<string>, doc: Document, enc: Encoding)
    requires Request(coll, keys, doc, enc).Ok?
    ensures var kvs := Request(coll, keys, doc, enc).value;
      var v := doc.paths[keys[0]].str;
      && |kvs| == |keys| + |doc.members|
      && kvs[0] == KV(IndexKey(coll, keys[0], v), v)
      && (forall j :: 1 <= j < |keys| ==>
            keys[j] in doc.paths && kvs[j] == KV(SecondaryKey(coll, keys[j], doc.paths[keys[j]].str, v), v))
      && (forall i :: 0 <= i < |doc.members| ==>
            kvs[|keys| + i] == KV(FieldKey(coll, v, doc.members[i].name), Stored(enc, doc.members[i].value)))
      && KeyList(kvs)[|keys|..] == FieldKeys(coll, v, doc.members)
  {
    forall j | 1 <= j < |keys| ensures keys[j] in doc.paths {
      assert keys[1..][j - 1] == keys[j];
    }
  }
}
