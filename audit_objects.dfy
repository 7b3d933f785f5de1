/**
 * ImmudbObjects (pkg/audittrail/audittrailKVjson.go): the older twin of
 * JsonRepository. Field entries hold the member's String() text and are
 * written back with Set; RestoreHistory stamps each version with the
 * transaction of the versions-key entry itself.
 */
module AuditTrail {
  import opened Wrappers
  import opened Decimal
  import opened Json
  import opened Immudb
  import opened Keys
  import opened Errors
  import opened Exploded
  import opened RoundTrip

  class ImmudbObjects {
    const client: Client
    const collection: string
    /** The indexed fields; the first is the primary key. */
    const indexedKeys: seq<string>

    constructor (client: Client, collection: string, indexedKeys: seq<string>)
      ensures this.client == client && this.collection == collection && this.indexedKeys == indexedKeys
    {
      this.client := client;
      this.collection := collection;
      this.indexedKeys := indexedKeys;
    }

    /**
     * StoreBytes: the index and String() field entries in one transaction,
     * whose id is the result; then the field keys pinned in that
     * transaction's set and the id recorded under the versions key.
     */
    method StoreBytes(doc: Document) returns (r: Result<nat, Error>)
      requires client.Valid()
      modifies client
      ensures client.Valid()
      ensures Request(collection, indexedKeys, doc, AsString).Err? ==>
        r == Err(Request(collection, indexedKeys, doc, AsString).error) && unchanged(client)
      ensures r.Err? && r.error != Fatal ==> unchanged(client)
      ensures Request(collection, indexedKeys, doc, AsString).Ok? && r.Err? && r.error != Fatal ==>
        r.error.Failed? && Reports(r.error.message, "could not store object: ")
      ensures r.Ok? ==> Request(collection, indexedKeys, doc, AsString).Ok?
      ensures r.Ok? ==> r.value == old(client.db.lastTx) + 1
      ensures r.Ok? ==> client.db == StoreAfter(old(client.db), collection, indexedKeys, doc, AsString)
    {
      r := StoreObject(client, collection, indexedKeys, doc, AsString);
    }

    /**
     * Restore(key, condition): the object of every index entry under field
     * `key` whose value starts with `condition`, in key order; a failed
     * scan or an object that does not rebuild is the error.
     */
    method Restore(key: string, condition: string) returns (r: Result<seq<Object>, Error>)
      requires client.Valid()
      ensures var cat := Catalog(client.db.keys, client.db.revs, client.pageSize, collection, AsString);
        var all := Matching(client.db.keys, ScanPrefix(collection, key, condition), []);
        && (r.Ok? ==> Rebuilt(cat, all) && r.value == ObjectsOf(cat, all))
        && (r.Err? ==> RestoreFailure(r.error, cat, all))
    {
      r := RestoreObjects(client, collection, key, condition, AsString);
    }

    /**
     * RestoreHistory(v): one version per entry of the versions key, the
     * object read through the set that entry names, stamped with the
     * entry's own transaction and revision. The first object that does not
     * rebuild is the error; a failed call ends the process.
     */
    method RestoreHistory(primaryKeyValue: string) returns (r: Result<seq<Version>, Error>)
      requires client.Valid() && |indexedKeys| > 0
      ensures var es := HistoryOf(client.db.revs, VersionsKey(collection, indexedKeys[0], primaryKeyValue), client.pageSize);
        || r == EntryVersions(client.db.revs, client.db.zsets, client.pageSize, collection, indexedKeys[0], primaryKeyValue, es, AsString)
        || r == Err(Fatal)
    {
      var pk := indexedKeys[0];
      var entries := client.History(VersionsKey(collection, pk, primaryKeyValue));
      if entries.Err? {
        return Err(Fatal);
      }
      var es := entries.value;
      var objects: seq<Version> := [];
      for i := 0 to |es|
        invariant EntryVersions(client.db.revs, client.db.zsets, client.pageSize, collection, pk, primaryKeyValue, es[..i], AsString)
          == Ok(objects)
      {
        assert es[..i + 1][..i] == es[..i];
        var obj := ReadVersion(client, collection, pk, primaryKeyValue, es[i].value, AsString);
        if obj.Err? {
          if obj.error != Fatal {
            EntryVersionsKeepsError(client.db.revs, client.db.zsets, client.pageSize, collection, pk, primaryKeyValue, es, AsString, i + 1);
          }
          return Err(obj.error);
        }
        objects := objects + [Version(obj.value, es[i].tx, es[i].revision)];
      }
      assert es[..|es|] == es;
      r := Ok(objects);
    }
  }

  /**
   * RestoreHistory right after StoreBytes reads the stored version back as
   * the stored document, but the transaction id it reports is not the id
   * StoreBytes returned: the versions-key entry was written after the batch
   * and one ZAddAt per member, so its transaction is that id plus the number
   * of members plus one. The version's set must be new and fit in one ZScan
   * page, and no member name may be empty.
   */
  lemma RestoreHistoryReportsWriteTx(s: Snapshot, pageSize: nat, coll: string, keys: seq<string>, doc: Document)
    requires Request(coll, keys, doc, AsString).Ok? && Acceptable(Request(coll, keys, doc, AsString).value)
    requires VersionSet(coll, keys[0], doc.paths[keys[0]].str, Format(s.lastTx + 1)) !in s.zsets
    requires |doc.members| <= pageSize
    requires forall m :: m in doc.members ==> m.name != []
    ensures var v := doc.paths[keys[0]].str;
      var after := StoreAfter(s, coll, keys, doc, AsString);
      var versions := EntryVersions(after.revs, after.zsets, pageSize, coll, keys[0], v,
                                    [Current(after.revs, VersionsKey(coll, keys[0], v))], AsString);
      && versions.Ok? && |versions.value| == 1
      && versions.value[0].txID == s.lastTx + 1 + |doc.members| + 1 != s.lastTx + 1
      && HoldsMembers(versions.value[0].obj, doc, AsString)
  {
    VersionRecorded(s, coll, keys, doc, AsString);
    VersionRoundTrip(s, pageSize, coll, keys, doc, AsString);
    var v := doc.paths[keys[0]].str;
    var after := StoreAfter(s, coll, keys, doc, AsString);
    EntryVersionsOk(after.revs, after.zsets, pageSize, coll, keys[0], v, [Current(after.revs, VersionsKey(coll, keys[0], v))], AsString);
    EntryVersionsAt(after.revs, after.zsets, pageSize, coll, keys[0], v, [Current(after.revs, VersionsKey(coll, keys[0], v))], AsString);
  }
}
