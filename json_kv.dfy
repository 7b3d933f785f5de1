/**
 * JsonKVRepository: a JSON document stored once under a payload key, with
 * a primary index entry and one secondary index entry per further indexed
 * field, each pointing at that payload key. Lookups scan the index prefix
 * page by page and dereference every hit; the history of a document is the
 * revision list of its payload key.
 */
module JsonKV {
  import opened Wrappers
  import opened Text
  import opened Json
  import opened Immudb
  import opened Keys
  import opened Errors

  /** The secondary index entry for `keys[j]` (j >= 1) of a document whose primary-key text is `v`. */
  function SecondaryEntry(coll: string, keys: seq<string>, doc: Document, v: string, j: nat): KV
    requires 1 <= j < |keys| && keys[j] in doc.paths
  {
    KV(SecondaryKey(coll, keys[j], doc.paths[keys[j]].str, v), PayloadKey(coll, keys[0], v))
  }

  /**
   * The batch WriteBytes sends for `doc` (whose bytes are `jBytes`), or the
   * error it returns without writing anything.
   */
  function Request(coll: string, keys: seq<string>, doc: Document, jBytes: string): Result<seq<KV>, Error>
  {
    if |keys| == 0 then Err(Failed("primary key is mandataory"))
    else if keys[0] !in doc.paths then Err(Failed("missing primary key in object"))
    else if !AllPresent(doc, keys[1..]) then Err(Failed("missing secondary key in object"))
    else
      var v := doc.paths[keys[0]].str;
      var payload := PayloadKey(coll, keys[0], v);
      Ok([KV(IndexKey(coll, keys[0], v), payload), KV(payload, jBytes)]
        + seq(|keys| - 1, i requires 0 <= i < |keys| - 1 => SecondaryEntry(coll, keys, doc, v, i + 1)))
  }

  /** The bytes an index entry leads to: the current value of the key its current value names. */
  function Deref(revs: map<string, seq<Revision>>, k: string): Option<string>
  {
    if k in revs && |revs[k]| > 0 then
      var target := Current(revs, k).value;
      if target in revs && |revs[target]| > 0 then Some(Current(revs, target).value) else None
    else None
  }

  /** What a lookup returns for the index keys `ks`: every dereferenced document, or None if one is missing. */
  function Objects(revs: map<string, seq<Revision>>, ks: seq<string>): (r: Option<seq<string>>)
    ensures r.Some? ==> |r.value| == |ks|
  {
    if ks == [] then Some([])
    else
      match Objects(revs, ks[..|ks| - 1])
      case None => None
      case Some(os) =>
        match Deref(revs, ks[|ks| - 1])
        case None => None
        case Some(o) => Some(os + [o])
  }

  /** One entry of a document's history. */
  datatype HistoryRecord = HistoryRecord(entry: string, txID: nat, revision: nat)

  function Records(es: seq<Entry>): (r: seq<HistoryRecord>)
    ensures |r| == |es|
  {
    seq(|es|, i requires 0 <= i < |es| => HistoryRecord(es[i].value, es[i].tx, es[i].revision))
  }

  class JsonKVRepository {
    const client: Client
    const collection: string
    /** The indexed fields; the first is the primary key. */
    const indexedKeys: seq<string>

    constructor (client: Client, collection: string, indexedKeys: seq<string>)
      ensures this.client == client && this.collection == collection && this.indexedKeys == indexedKeys
    {
      this.client := client;
      this.collection := collection;
      this.indexedKeys := indexedKeys;
    }

    /** NewJsonKVRepository: a repository needs at least the primary key, else the process exits. */
    static method New(client: Client, collection: string, indexedKeys: seq<string>) returns (r: Result<JsonKVRepository, Error>)
      ensures |indexedKeys| == 0 <==> r == Err(Fatal)
      ensures r.Ok? ==> fresh(r.value) && r.value.client == client
      ensures r.Ok? ==> r.value.collection == collection && r.value.indexedKeys == indexedKeys
    {
      if |indexedKeys| == 0 {
        return Err(Fatal);
      }
      var repo := new JsonKVRepository(client, collection, indexedKeys);
      r := Ok(repo);
    }

    /**
     * WriteBytes: index the document and store its bytes in one transaction;
     * the id of that transaction is the result.
     */
    method WriteBytes(jBytes: string, doc: Document) returns (r: Result<nat, Error>)
      requires client.Valid()
      modifies client
      ensures client.Valid()
      ensures Request(collection, indexedKeys, doc, jBytes).Err? ==>
        r == Err(Request(collection, indexedKeys, doc, jBytes).error) && unchanged(client)
      ensures r.Ok? ==> Request(collection, indexedKeys, doc, jBytes).Ok?
      ensures r.Ok? ==> var kvs := Request(collection, indexedKeys, doc, jBytes).value;
        && Acceptable(kvs)
        && r.value == old(client.db.lastTx) + 1
        && client.db == Committed(old(client.db), kvs)
      ensures Request(collection, indexedKeys, doc, jBytes).Ok? && r.Err? ==>
        r.error.Failed? && Reports(r.error.message, "could not store object: ")
      ensures r.Err? ==> unchanged(client)
    {
      if |indexedKeys| == 0 {
        return Err(Failed("primary key is mandataory"));
      }
      var pk := Get(doc, indexedKeys[0]);
      if pk.None? {
        return Err(Failed("missing primary key in object"));
      }
      var v := pk.value.str;
      var payload := PayloadKey(collection, indexedKeys[0], v);
      var kvs := [KV(IndexKey(collection, indexedKeys[0], v), payload), KV(payload, jBytes)];
      var i := 1;
      while i < |indexedKeys|
        invariant 1 <= i <= |indexedKeys|
        invariant forall j :: 1 <= j < i ==> indexedKeys[j] in doc.paths
        invariant |kvs| == i + 1
        invariant kvs[..2] == [KV(IndexKey(collection, indexedKeys[0], v), payload), KV(payload, jBytes)]
        invariant forall j :: 1 <= j < i ==> kvs[j + 1] == SecondaryEntry(collection, indexedKeys, doc, v, j)
      {
        var sk := Get(doc, indexedKeys[i]);
        if sk.None? {
          assert indexedKeys[1..][i - 1] !in doc.paths;
          return Err(Failed("missing secondary key in object"));
        }
        kvs := kvs + [KV(SecondaryKey(collection, indexedKeys[i], sk.value.str, v), payload)];
        i := i + 1;
      }
      assert AllPresent(doc, indexedKeys[1..]) by {
        forall j | 0 <= j < |indexedKeys[1..]| ensures indexedKeys[1..][j] in doc.paths {
          assert indexedKeys[1..][j] == indexedKeys[j + 1];
        }
      }
      assert kvs == Request(collection, indexedKeys, doc, jBytes).value;
      var res := client.SetAll(kvs);
      if res.Err? {
        return Err(Failed("could not store object: " + Describe(res.error)));
      }
      r := Ok(res.value);
    }

    /**
     * Read(key, condition): every document with an index entry under field
     * `key` whose value starts with `condition`, in key order, paging through
     * the index 999 entries at a time; a failed scan or a failed fetch of a
     * document is the error.
     */
    method Read(key: string, condition: string) returns (r: Result<seq<string>, Error>)
      requires client.Valid()
      ensures r.Ok? ==> Objects(client.db.revs, Matching(client.db.keys, ScanPrefix(collection, key, condition), [])) == Some(r.value)
      ensures r.Err? ==>
        && r.error.Failed?
        && (Reports(r.error.message, "could not scan for objects, ") || Reports(r.error.message, "could not scan for object, "))
    {
      var prefix := ScanPrefix(collection, key, condition);
      ghost var keys, revs := client.db.keys, client.db.revs;
      ghost var all := Matching(keys, prefix, []);
      ghost var done: nat := 0;
      var seekKey: string := [];
      var objects: seq<string> := [];
      assert all[..done] == [];
      while true
        invariant done <= |all|
        invariant Matching(keys, prefix, seekKey) == all[done..]
        invariant Objects(revs, all[..done]) == Some(objects)
        decreases |Matching(keys, prefix, seekKey)|
      {
        var page := client.Scan(prefix, seekKey, 999);
        if page.Err? {
          return Err(Failed("could not scan for objects, " + Describe(page.error)));
        }
        var entries := page.value;
        if |entries| == 0 {
          assert all[..done] == all;
          break;
        }
        PageStep(keys, revs, prefix, all, done, seekKey, entries);
        ghost var next := done + |entries|;
        var got := DerefPage(all[done..next], entries);
        if got.Err? {
          return got;
        }
        ObjectsStep(revs, all, done, next, objects, got.value);
        seekKey := entries[|entries| - 1].key;
        objects := objects + got.value;
        done := next;
      }
      r := Ok(objects);
    }

    /** The inner loop of Read: fetch the document each index entry of one page names. */
    method DerefPage(ghost ks: seq<string>, entries: seq<Entry>) returns (r: Result<seq<string>, Error>)
      requires client.Valid()
      requires CurrentOf(client.db.revs, ks, entries)
      ensures r.Ok? ==> Objects(client.db.revs, ks) == Some(r.value)
      ensures r.Err? ==> r.error.Failed? && Reports(r.error.message, "could not scan for object, ")
    {
      var objects: seq<string> := [];
      for j := 0 to |entries|
        invariant Objects(client.db.revs, ks[..j]) == Some(objects)
      {
        CurrentOfAt(client.db.revs, ks, entries, j);
        var got := client.Get(entries[j].value);
        if got.Err? {
          return Err(Failed("could not scan for object, " + Describe(got.error)));
        }
        DerefOf(client.db.revs, ks[j], entries[j], got.value);
        ObjectsSnoc(client.db.revs, ks[..j], ks[j], objects, got.value.value);
        assert ks[..j + 1] == ks[..j] + [ks[j]];
        objects := objects + [got.value.value];
      }
      assert ks[..|entries|] == ks;
      r := Ok(objects);
    }

    /** History(v): every revision of the payload of the document whose primary key is `v`. */
    method History(primaryKeyValue: string) returns (r: Result<seq<HistoryRecord>, Error>)
      requires client.Valid() && |indexedKeys| > 0
      ensures r.Ok? ==> r.value == Records(HistoryOf(client.db.revs, PayloadKey(collection, indexedKeys[0], primaryKeyValue), client.pageSize))
      ensures r.Err? ==> r.error == Fatal
    {
      var entries := client.History(PayloadKey(collection, indexedKeys[0], primaryKeyValue));
      if entries.Err? {
        return Err(Fatal);
      }
      var es := entries.value;
      var objects: seq<HistoryRecord> := [];
      for i := 0 to |es|
        invariant objects == Records(es[..i])
      {
        objects := objects + [HistoryRecord(es[i].value, es[i].tx, es[i].revision)];
      }
      assert es[..|es|] == es;
      r := Ok(objects);
    }
  }

  /**
   * A missing field is reported before anything is written: an empty key
   * list, a missing primary field and a missing secondary field are exactly
   * the requests that fail.
   */
  lemma RequestFails(coll: string, keys: seq<string>, doc: Document, jBytes: string)
    ensures Request(coll, keys, doc, jBytes).Err? <==>
      |keys| == 0 || exists j :: 0 <= j < |keys| && keys[j] !in doc.paths
    ensures |keys| > 0 && keys[0] !in doc.paths ==>
      Request(coll, keys, doc, jBytes) == Err(Failed("missing primary key in object"))
  {
    if |keys| > 0 && keys[0] in doc.paths {
      if !AllPresent(doc, keys[1..]) {
        var j :| 0 <= j < |keys[1..]| && keys[1..][j] !in doc.paths;
        assert keys[j + 1] !in doc.paths;
      } else {
        forall j | 0 <= j < |keys| ensures keys[j] in doc.paths {
          if j > 0 { assert keys[1..][j - 1] == keys[j]; }
        }
      }
    }
  }

  /**
   * The batch holds 1 + |keys| entries: the primary index entry, the
   * payload entry holding the bytes unchanged, then one secondary entry per
   * further indexed field in order; every index entry's value is the payload key.
   */
  lemma RequestShape(coll: string, keys: seq<string>, doc: Document, jBytes: string)
    requires Request(coll, keys, doc, jBytes).Ok?
    ensures var kvs := Request(coll, keys, doc, jBytes).value;
      var v := doc.paths[keys[0]].str;
      && |kvs| == 1 + |keys|
      && kvs[0] == KV(IndexKey(coll, keys[0], v), PayloadKey(coll, keys[0], v))
      && kvs[1] == KV(PayloadKey(coll, keys[0], v), jBytes)
      && (forall j :: 1 <= j < |keys| ==>
            keys[j] in doc.paths && kvs[j + 1].key == SecondaryKey(coll, keys[j], doc.paths[keys[j]].str, v))
      && (forall j :: 0 <= j < |kvs| && j != 1 ==> kvs[j].value == PayloadKey(coll, keys[0], v))
  {
    var kvs := Request(coll, keys, doc, jBytes).value;
    forall j | 1 <= j < |keys| ensures keys[j] in doc.paths {
      assert keys[1..][j - 1] == keys[j];
    }
  }

  lemma ObjectsSnoc(revs: map<string, seq<Revision>>, ks: seq<string>, k: string, objects: seq<string>, o: string)
    requires Objects(revs, ks) == Some(objects)
    requires Deref(revs, k) == Some(o)
    ensures Objects(revs, ks + [k]) == Some(objects + [o])
  {
    assert (ks + [k])[..|ks|] == ks;
  }

  lemma {:induction false} ObjectsAppend(revs: map<string, seq<Revision>>, a: seq<string>, b: seq<string>, x: seq<string>, y: seq<string>)
    requires Objects(revs, a) == Some(x) && Objects(revs, b) == Some(y)
    ensures Objects(revs, a + b) == Some(x + y)
    decreases |b|
  {
    if b != [] {
      var b', y' := b[..|b| - 1], y[..|y| - 1];
      assert Objects(revs, b') == Some(y');
      ObjectsAppend(revs, a, b', x, y');
      assert (a + b)[..|a + b| - 1] == a + b';
      assert x + y == (x + y') + [y[|y| - 1]];
    } else {
      assert a + b == a && x + y == x;
    }
  }

  /** Read's loop invariant carried over the keys from `done` to `next`, whose documents are `page`. */
  lemma ObjectsStep(revs: map<string, seq<Revision>>, all: seq<string>, done: nat, next: nat, objects: seq<string>, page: seq<string>)
    requires done <= next <= |all|
    requires Objects(revs, all[..done]) == Some(objects) && Objects(revs, all[done..next]) == Some(page)
    ensures Objects(revs, all[..next]) == Some(objects + page)
  {
    ObjectsAppend(revs, all[..done], all[done..next], objects, page);
    PrefixJoin(all, done, next - done);
  }

  lemma PrefixJoin(s: seq<string>, i: nat, n: nat)
    requires i + n <= |s|
    ensures s[..i] + s[i..i + n] == s[..i + n]
  {
  }

  lemma DerefOf(revs: map<string, seq<Revision>>, k: string, e: Entry, g: Entry)
    requires k in revs && |revs[k]| > 0 && e == Current(revs, k)
    requires e.value in revs && |revs[e.value]| > 0 && g == Current(revs, e.value)
    ensures Deref(revs, k) == Some(g.value)
  {
  }

  lemma {:induction false} ObjectsAt(revs: map<string, seq<Revision>>, ks: seq<string>, i: nat)
    requires Objects(revs, ks).Some? && i < |ks|
    ensures |Objects(revs, ks).value| == |ks|
    ensures Deref(revs, ks[i]) == Some(Objects(revs, ks).value[i])
  {
    var init := ks[..|ks| - 1];
    if i < |ks| - 1 {
      ObjectsAt(revs, init, i);
    } else if |init| > 0 {
      ObjectsAt(revs, init, 0);
    }
  }

  /**
   * Right after a successful write, every index entry of the document
   * (primary and secondary) dereferences to the document's bytes.
   */
  lemma IndexLeadsToDocument(coll: string, keys: seq<string>, doc: Document, jBytes: string,
                             revs: map<string, seq<Revision>>, tx: nat, j: nat)
    requires Request(coll, keys, doc, jBytes).Ok?
    requires Acceptable(Request(coll, keys, doc, jBytes).value)
    requires j < |Request(coll, keys, doc, jBytes).value| && j != 1
    ensures Deref(AppendAll(revs, Request(coll, keys, doc, jBytes).value, tx),
                  Request(coll, keys, doc, jBytes).value[j].key) == Some(jBytes)
  {
    var kvs := Request(coll, keys, doc, jBytes).value;
    RequestShape(coll, keys, doc, jBytes);
    CurrentAfterBatch(revs, kvs, tx, j);
    CurrentAfterBatch(revs, kvs, tx, 1);
  }

  /**
   * Right after a successful write, a lookup by the primary field with any
   * prefix of the document's primary-key text scans the document's primary
   * index entry, and wherever that entry sits in the result, the result holds
   * the document's bytes there.
   */
  lemma ReadFindsWritten(coll: string, keys: seq<string>, doc: Document, jBytes: string,
                         storeKeys: seq<string>, revs: map<string, seq<Revision>>, tx: nat, cond: string)
    requires Request(coll, keys, doc, jBytes).Ok?
    requires Acceptable(Request(coll, keys, doc, jBytes).value)
    requires Sorted(storeKeys)
    requires HasPrefix(doc.paths[keys[0]].str, cond)
    ensures var kvs := Request(coll, keys, doc, jBytes).value;
      kvs[0].key in Matching(InsertAll(storeKeys, kvs), ScanPrefix(coll, keys[0], cond), [])
    ensures var kvs := Request(coll, keys, doc, jBytes).value;
      var found := Matching(InsertAll(storeKeys, kvs), ScanPrefix(coll, keys[0], cond), []);
      var objects := Objects(AppendAll(revs, kvs, tx), found);
      forall i :: 0 <= i < |found| && found[i] == kvs[0].key && objects.Some? ==> objects.value[i] == jBytes
  {
    var kvs := Request(coll, keys, doc, jBytes).value;
    var v := doc.paths[keys[0]].str;
    RequestShape(coll, keys, doc, jBytes);
    IndexKeysMatchPrefix(coll, keys[0], v, cond, v);
    assert kvs[0].key in KeysOf(kvs);
    InsertAllMembers(storeKeys, kvs);
    var found := Matching(InsertAll(storeKeys, kvs), ScanPrefix(coll, keys[0], cond), []);
    MatchingMembers(InsertAll(storeKeys, kvs), ScanPrefix(coll, keys[0], cond), []);
    var after := AppendAll(revs, kvs, tx);
    forall i | 0 <= i < |found| && found[i] == kvs[0].key && Objects(after, found).Some?
      ensures Objects(after, found).value[i] == jBytes
    {
      ObjectsAt(after, found, i);
      IndexLeadsToDocument(coll, keys, doc, jBytes, revs, tx, 0);
    }
  }

  /**
   * History records come oldest first: revision i+1 at position i, each
   * with the bytes that revision wrote, in strictly increasing transactions.
   */
  lemma HistoryOrdered(revs: map<string, seq<Revision>>, k: string, limit: nat)
    requires k in revs && TxAscending(revs[k])
    ensures var rs := Records(HistoryOf(revs, k, limit));
      && (forall i :: 0 <= i < |rs| ==> rs[i].revision == i + 1 && rs[i].entry == revs[k][i].value)
      && (forall i, j :: 0 <= i < j < |rs| ==> rs[i].txID < rs[j].txID)
  {
    TxAscendingPairs(revs[k]);
  }

  /** A successful write appends one revision, holding the document's bytes, to the payload key's history. */
  lemma WriteExtendsHistory(coll: string, keys: seq<string>, doc: Document, jBytes: string,
                            revs: map<string, seq<Revision>>, tx: nat)
    requires Request(coll, keys, doc, jBytes).Ok?
    requires Acceptable(Request(coll, keys, doc, jBytes).value)
    ensures var payload := PayloadKey(coll, keys[0], doc.paths[keys[0]].str);
      var after := AppendAll(revs, Request(coll, keys, doc, jBytes).value, tx);
      payload in after && after[payload] == (if payload in revs then revs[payload] else []) + [Revision(jBytes, tx)]
  {
    var kvs := Request(coll, keys, doc, jBytes).value;
    RequestShape(coll, keys, doc, jBytes);
    ValueInAt(kvs, 1);
  }
}
