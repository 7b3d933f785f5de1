/**
 * JsonRepository (pkg/repository/immudb/json.go): documents stored field by
 * field in the layout of module Exploded, each field entry holding the
 * member's raw JSON and written back with SetRaw; History reads every
 * version through the versions key and its per-transaction sorted set.
 */
module JsonRepo {
  import opened Wrappers
  import opened Decimal
  import opened Json
  import opened Immudb
  import opened Keys
  import opened Errors
  import opened Exploded
  import opened RoundTrip

  class JsonRepository {
    const client: Client
    const collection: string
    /** The indexed fields; the first is the primary key. */
    const indexedKeys: seq<string>

    constructor (client: Client, collection: string, indexedKeys: seq<string>)
      ensures this.client == client && this.collection == collection && this.indexedKeys == indexedKeys
    {
      this.client := client;
      this.collection := collection;
      this.indexedKeys := indexedKeys;
    }

    /** NewJsonRepository: a repository needs at least the primary key, else the process exits. */
    static method New(client: Client, collection: string, indexedKeys: seq<string>) returns (r: Result<JsonRepository, Error>)
      ensures |indexedKeys| == 0 <==> r == Err(Fatal)
      ensures r.Ok? ==> fresh(r.value) && r.value.client == client
      ensures r.Ok? ==> r.value.collection == collection && r.value.indexedKeys == indexedKeys
    {
      if |indexedKeys| == 0 {
        return Err(Fatal);
      }
      var repo := new JsonRepository(client, collection, indexedKeys);
      r := Ok(repo);
    }

    /**
     * StoreBytes: the index and raw field entries in one transaction, whose
     * id is the result; then the field keys pinned in that transaction's set
     * and the id recorded under the versions key.
     */
    method StoreBytes(doc: Document) returns (r: Result<nat, Error>)
      requires client.Valid()
      modifies client
      ensures client.Valid()
      ensures Request(collection, indexedKeys, doc, AsRaw).Err? ==>
        r == Err(Request(collection, indexedKeys, doc, AsRaw).error) && unchanged(client)
      ensures r.Err? && r.error != Fatal ==> unchanged(client)
      ensures Request(collection, indexedKeys, doc, AsRaw).Ok? && r.Err? && r.error != Fatal ==>
        r.error.Failed? && Reports(r.error.message, "could not store object: ")
      ensures r.Ok? ==> Request(collection, indexedKeys, doc, AsRaw).Ok?
      ensures r.Ok? ==> r.value == old(client.db.lastTx) + 1
      ensures r.Ok? ==> client.db == StoreAfter(old(client.db), collection, indexedKeys, doc, AsRaw)
    {
      r := StoreObject(client, collection, indexedKeys, doc, AsRaw);
    }

    /**
     * Restore(key, condition): the object of every index entry under field
     * `key` whose value starts with `condition`, in key order; a failed
     * scan or an object that does not rebuild is the error.
     */
    method Restore(key: string, condition: string) returns (r: Result<seq<Object>, Error>)
      requires client.Valid()
      ensures var cat := Catalog(client.db.keys, client.db.revs, client.pageSize, collection, AsRaw);
        var all := Matching(client.db.keys, ScanPrefix(collection, key, condition), []);
        && (r.Ok? ==> Rebuilt(cat, all) && r.value == ObjectsOf(cat, all))
        && (r.Err? ==> RestoreFailure(r.error, cat, all))
    {
      r := RestoreObjects(client, collection, key, condition, AsRaw);
    }

    /**
     * History(v): one version per entry of the versions key, the object
     * read through the set that entry names and the transaction id parsed
     * from the entry's text. The first object that does not rebuild is the
     * error; a failed call or a text that is not a uint64 ends the process.
     */
    method History(primaryKeyValue: string) returns (r: Result<seq<Version>, Error>)
      requires client.Valid() && |indexedKeys| > 0
      ensures var es := HistoryOf(client.db.revs, VersionsKey(collection, indexedKeys[0], primaryKeyValue), client.pageSize);
        || r == ParsedVersions(client.db.revs, client.db.zsets, client.pageSize, collection, indexedKeys[0], primaryKeyValue, es, AsRaw)
        || r == Err(Fatal)
    {
      var pk := indexedKeys[0];
      var entries := client.History(VersionsKey(collection, pk, primaryKeyValue));
      if entries.Err? {
        return Err(Fatal);
      }
      var es := entries.value;
      var objects: seq<Version> := [];
      for i := 0 to |es|
        invariant ParsedVersions(client.db.revs, client.db.zsets, client.pageSize, collection, pk, primaryKeyValue, es[..i], AsRaw)
          == Ok(objects)
      {
        assert es[..i + 1][..i] == es[..i];
        var obj := ReadVersion(client, collection, pk, primaryKeyValue, es[i].value, AsRaw);
        if obj.Err? {
          if obj.error != Fatal {
            ParsedVersionsKeepsError(client.db.revs, client.db.zsets, client.pageSize, collection, pk, primaryKeyValue, es, AsRaw, i + 1);
          }
          return Err(obj.error);
        }
        var txID := ParseUint(es[i].value);
        if txID.None? {
          return Err(Fatal);
        }
        objects := objects + [Version(obj.value, txID.value, es[i].revision)];
      }
      assert es[..|es|] == es;
      r := Ok(objects);
    }
  }

  /**
   * History right after StoreBytes: the versions key's current entry names
   * the stored version, and History reads it back as the stored document
   * stamped with the id StoreBytes returned, the entry's text parsing back
   * to the same number. The version's set must be new and fit in one ZScan
   * page, and no member name may be empty.
   */
  lemma HistoryReportsObjectTx(s: Snapshot, pageSize: nat, coll: string, keys: seq<string>, doc: Document)
    requires Request(coll, keys, doc, AsRaw).Ok? && Acceptable(Request(coll, keys, doc, AsRaw).value)
    requires s.lastTx + 1 < Uint64Limit
    requires VersionSet(coll, keys[0], doc.paths[keys[0]].str, Format(s.lastTx + 1)) !in s.zsets
    requires |doc.members| <= pageSize
    requires forall m :: m in doc.members ==> m.name != []
    ensures var v := doc.paths[keys[0]].str;
      var after := StoreAfter(s, coll, keys, doc, AsRaw);
      var versions := ParsedVersions(after.revs, after.zsets, pageSize, coll, keys[0], v,
                                     [Current(after.revs, VersionsKey(coll, keys[0], v))], AsRaw);
      && versions.Ok? && |versions.value| == 1
      && versions.value[0].txID == s.lastTx + 1
      && HoldsMembers(versions.value[0].obj, doc, AsRaw)
  {
    var t := s.lastTx + 1;
    VersionRecorded(s, coll, keys, doc, AsRaw);
    FormatParseUint(t);
    VersionRoundTrip(s, pageSize, coll, keys, doc, AsRaw);
    var v := doc.paths[keys[0]].str;
    var after := StoreAfter(s, coll, keys, doc, AsRaw);
    var e := Current(after.revs, VersionsKey(coll, keys[0], v));
    assert e.value == Format(t);
    var obj := VersionObject(after.revs, after.zsets, pageSize, coll, keys[0], v, Format(t), AsRaw);
    ParsedSingle(after.revs, after.zsets, pageSize, coll, keys[0], v, e, AsRaw, obj.value, t);
  }

  /** A versions key holding one entry gives one version: its object, its text read back, its revision. */
  lemma ParsedSingle(revs: map<string, seq<Revision>>, zsets: map<string, ZSet>, pageSize: nat,
                     coll: string, pk: string, v: string, e: Entry, enc: Encoding, obj: Object, tx: nat)
    requires VersionObject(revs, zsets, pageSize, coll, pk, v, e.value, enc) == Ok(obj)
    requires ParseUint(e.value) == Some(tx)
    ensures ParsedVersions(revs, zsets, pageSize, coll, pk, v, [e], enc) == Ok([Version(obj, tx, e.revision)])
  {
    assert [e][..0] == [];
    assert ParsedVersions(revs, zsets, pageSize, coll, pk, v, [], enc) == Ok([]);
    var one := Version(obj, tx, e.revision);
    assert [] + [one] == [one];
  }
}
