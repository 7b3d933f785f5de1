/**
 * The versioned key-value store the repositories write to, seen through the
 * client calls they make: SetAll, Set, Get, Scan, History, ZAddAt and ZScan.
 * The store is outside this model's subject; this module states the contract
 * the repositories rely on: keys are kept in byte-wise order, every write is
 * one transaction with the next transaction id and appends one revision to each
 * key it names, and any call may fail (the network), which the model leaves
 * open with a nondeterministic choice.
 */
module Immudb {
  import opened Wrappers
  import opened Text

  datatype KV = KV(key: string, value: string)

  /** One revision of a key: the value written and the transaction that wrote it. */
  datatype Revision = Revision(value: string, tx: nat)

  /** An entry as Get, Scan and History return it; `revision` counts from 1. */
  datatype Entry = Entry(key: string, value: string, tx: nat, revision: nat)

  /** A sorted set of score-0 members: its member keys in member order (shorter first, then byte order), each pinned at a transaction. */
  datatype ZSet = ZSet(members: seq<string>, atTx: map<string, nat>)

  /** A sorted-set member as ZScan returns it: the key, its value as of `atTx`. */
  datatype ZEntry = ZEntry(key: string, value: string, atTx: nat)

  datatype Failure = Unavailable | IllegalArguments | DuplicatedKey | KeyNotFound

  /**
   * The text of a failed call (its Error()); the server's own wording is not
   * part of this model, so each kind of failure gets one fixed text.
   */
  function Describe(f: Failure): string
  {
    match f
    case Unavailable => "unavailable"
    case IllegalArguments => "illegal arguments"
    case DuplicatedKey => "duplicated key"
    case KeyNotFound => "key not found"
  }

  /** `message` is `context` with the text of some failed call appended (fmt.Errorf's %w). */
  ghost predicate Reports(message: string, context: string)
  {
    exists f: Failure :: message == context + Describe(f)
  }

  /** A key after the seek key; an empty seek key means "from the first key". */
  predicate After(seek: string, k: string)
  {
    seek == [] || Lt(seek, k)
  }

  /** The stored keys with the prefix that come after the seek key, in store order. */
  function Matching(keys: seq<string>, prefix: string, seek: string): (r: seq<string>)
    ensures |r| <= |keys|
  {
    if keys == [] then []
    else if HasPrefix(keys[0], prefix) && After(seek, keys[0]) then [keys[0]] + Matching(keys[1..], prefix, seek)
    else Matching(keys[1..], prefix, seek)
  }

  /** The scan holds exactly the stored keys with the prefix after the seek key. */
  lemma {:induction false} MatchingMembers(keys: seq<string>, prefix: string, seek: string)
    ensures forall k :: k in Matching(keys, prefix, seek) <==> k in keys && HasPrefix(k, prefix) && After(seek, k)
  {
    if keys != [] {
      MatchingMembers(keys[1..], prefix, seek);
      assert keys == [keys[0]] + keys[1..];
    }
  }

  /** Scanning an ascending key list lists its matches in ascending order. */
  lemma {:induction false} MatchingSorted(keys: seq<string>, prefix: string, seek: string)
    requires Sorted(keys)
    ensures Sorted(Matching(keys, prefix, seek))
  {
    if keys != [] {
      var t := keys[1..];
      assert Sorted(t);
      MatchingSorted(t, prefix, seek);
      var mt := Matching(t, prefix, seek);
      if HasPrefix(keys[0], prefix) && After(seek, keys[0]) && mt != [] {
        MatchingMembers(t, prefix, seek);
        assert mt[0] in mt;
        SortedHead(keys);
        assert ([keys[0]] + mt)[1..] == mt;
      }
    }
  }

  function Min(a: nat, b: nat): nat
  {
    if a <= b then a else b
  }

  /** Well-formed store contents: ascending non-empty keys, each with a non-empty, transaction-ordered history. */
  ghost predicate WellFormed(keys: seq<string>, revs: map<string, seq<Revision>>)
  {
    && Sorted(keys)
    && (forall k :: k in keys <==> k in revs)
    && (forall k :: k in revs ==> k != [] && |revs[k]| > 0 && TxAscending(revs[k]))
  }

  /** Every revision was written in a later transaction than the one before it. */
  predicate TxAscending(rs: seq<Revision>)
  {
    |rs| < 2 || (rs[|rs| - 2].tx < rs[|rs| - 1].tx && TxAscending(rs[..|rs| - 1]))
  }

  /** Transaction order holds between any two revisions, not just neighbours. */
  lemma {:induction false} TxAscendingPairs(rs: seq<Revision>)
    requires TxAscending(rs)
    ensures forall i, j :: 0 <= i < j < |rs| ==> rs[i].tx < rs[j].tx
  {
    if |rs| >= 2 {
      var init := rs[..|rs| - 1];
      TxAscendingPairs(init);
      forall i, j | 0 <= i < j < |rs| ensures rs[i].tx < rs[j].tx {
        if j < |rs| - 1 {
          assert rs[i] == init[i] && rs[j] == init[j];
        } else if i < |rs| - 2 {
          assert rs[i] == init[i] && rs[|rs| - 2] == init[|rs| - 2];
        }
      }
    }
  }

  /** The current entry of a key: its latest revision (a key never written has none: revision 0). */
  function Current(revs: map<string, seq<Revision>>, k: string): (e: Entry)
    ensures e.key == k
    ensures k in revs ==> e.revision == |revs[k]|
  {
    if k in revs && |revs[k]| > 0 then
      var rs := revs[k];
      Entry(k, rs[|rs| - 1].value, rs[|rs| - 1].tx, |rs|)
    else Entry(k, [], 0, 0)
  }

  /** The current entries of the keys `ks`, in order. */
  function Currents(revs: map<string, seq<Revision>>, ks: seq<string>): (r: seq<Entry>)
    ensures |r| == |ks|
  {
    if ks == [] then [] else [Current(revs, ks[0])] + Currents(revs, ks[1..])
  }

  lemma {:induction false} CurrentsAt(revs: map<string, seq<Revision>>, ks: seq<string>, i: nat)
    requires i < |ks|
    ensures Currents(revs, ks)[i] == Current(revs, ks[i])
  {
    if i > 0 {
      CurrentsAt(revs, ks[1..], i - 1);
    }
  }

  /** One page of a prefix scan: at most `limit` current entries after the seek key. */
  function Page(keys: seq<string>, revs: map<string, seq<Revision>>, prefix: string, seek: string, limit: nat): (r: seq<Entry>)
    ensures |r| == Min(limit, |Matching(keys, prefix, seek)|)
  {
    var m := Matching(keys, prefix, seek);
    Currents(revs, m[..Min(limit, |m|)])
  }

  /** The i-th entry of a page is the current entry of the i-th matching key, a stored key. */
  lemma PageAt(keys: seq<string>, revs: map<string, seq<Revision>>, prefix: string, seek: string, limit: nat, i: nat)
    requires WellFormed(keys, revs) && i < |Page(keys, revs, prefix, seek, limit)|
    ensures Matching(keys, prefix, seek)[i] in revs
    ensures Page(keys, revs, prefix, seek, limit)[i] == Current(revs, Matching(keys, prefix, seek)[i])
  {
    var m := Matching(keys, prefix, seek);
    MatchingMembers(keys, prefix, seek);
    assert m[i] in m;
    CurrentsAt(revs, m[..Min(limit, |m|)], i);
  }

  /** `entries` are the current revisions of the stored keys `ks`, position by position. */
  ghost predicate CurrentOf(revs: map<string, seq<Revision>>, ks: seq<string>, entries: seq<Entry>)
  {
    |ks| == |entries| &&
    (ks == [] ||
     (ks[|ks| - 1] in revs && entries[|ks| - 1] == Current(revs, ks[|ks| - 1]) &&
      CurrentOf(revs, ks[..|ks| - 1], entries[..|entries| - 1])))
  }

  lemma {:induction false} CurrentOfAt(revs: map<string, seq<Revision>>, ks: seq<string>, entries: seq<Entry>, j: nat)
    requires CurrentOf(revs, ks, entries) && j < |ks|
    ensures ks[j] in revs && entries[j] == Current(revs, ks[j])
  {
    if j < |ks| - 1 {
      CurrentOfAt(revs, ks[..|ks| - 1], entries[..|entries| - 1], j);
    }
  }

  /** A page holds the current revisions of the keys it lists. */
  lemma PageKeys(keys: seq<string>, revs: map<string, seq<Revision>>, prefix: string, seek: string, limit: nat, n: nat)
    requires WellFormed(keys, revs) && n <= |Page(keys, revs, prefix, seek, limit)|
    ensures CurrentOf(revs, Matching(keys, prefix, seek)[..n], Page(keys, revs, prefix, seek, limit)[..n])
    decreases n
  {
    if n > 0 {
      PageAt(keys, revs, prefix, seek, limit, n - 1);
      PageKeys(keys, revs, prefix, seek, limit, n - 1);
      var m := Matching(keys, prefix, seek);
      var p := Page(keys, revs, prefix, seek, limit);
      assert m[..n][..n - 1] == m[..n - 1];
      assert p[..n][..n - 1] == p[..n - 1];
    }
  }

  /**
   * One page of a scan that resumed `done` keys into the complete listing
   * `all`: it holds the current revisions of the next keys of the listing,
   * and resuming after its last key moves the cursor past them.
   */
  lemma PageStep(keys: seq<string>, revs: map<string, seq<Revision>>, prefix: string, all: seq<string>,
                 done: nat, seek: string, entries: seq<Entry>)
    requires WellFormed(keys, revs)
    requires done <= |all| && Matching(keys, prefix, seek) == all[done..]
    requires entries == Page(keys, revs, prefix, seek, 999) && entries != []
    ensures done + |entries| <= |all|
    ensures CurrentOf(revs, all[done..done + |entries|], entries)
    ensures Matching(keys, prefix, entries[|entries| - 1].key) == all[done + |entries|..]
  {
    var n := |entries|;
    PageKeys(keys, revs, prefix, seek, 999, n);
    assert entries[..n] == entries;
    PageAt(keys, revs, prefix, seek, 999, n - 1);
    PageAdvance(keys, prefix, seek, n);
    assert all[done..][..n] == all[done..done + n];
    assert all[done..][n..] == all[done + n..];
  }

  /** The revisions of one key, oldest first, at most `limit` of them; none for a key never written. */
  function HistoryOf(revs: map<string, seq<Revision>>, k: string, limit: nat): (r: seq<Entry>)
    ensures k !in revs ==> r == []
    ensures k in revs ==> |r| == Min(limit, |revs[k]|)
    ensures k in revs ==> forall i :: 0 <= i < |r| ==>
      r[i] == Entry(k, revs[k][i].value, revs[k][i].tx, i + 1)
  {
    if k !in revs then []
    else
      var rs := revs[k];
      seq(Min(limit, |rs|), i requires 0 <= i < Min(limit, |rs|) => Entry(k, rs[i].value, rs[i].tx, i + 1))
  }

  /** When the page holds a key's whole history, its last entry is the key's current entry. */
  lemma HistoryOfLast(revs: map<string, seq<Revision>>, k: string, limit: nat)
    requires k in revs && 0 < |revs[k]| <= limit
    ensures var h := HistoryOf(revs, k, limit); |h| > 0 && h[|h| - 1] == Current(revs, k)
  {
  }

  /** The value of a key as of transaction `tx`: its latest revision written at or before it. */
  function ValueAt(rs: seq<Revision>, tx: nat): Option<string>
  {
    if rs == [] then None
    else if rs[|rs| - 1].tx <= tx then Some(rs[|rs| - 1].value)
    else ValueAt(rs[..|rs| - 1], tx)
  }

  function KeysOf(kvs: seq<KV>): set<string>
  {
    set i | 0 <= i < |kvs| :: kvs[i].key
  }

  /** A batch the store accepts: non-empty, every key non-empty, no key twice. */
  predicate Acceptable(kvs: seq<KV>)
  {
    |kvs| > 0 && NonEmptyKeys(kvs) && DistinctKeys(kvs)
  }

  predicate NonEmptyKeys(kvs: seq<KV>)
  {
    forall i :: 0 <= i < |kvs| ==> kvs[i].key != []
  }

  predicate DistinctKeys(kvs: seq<KV>)
  {
    forall i, j :: 0 <= i < j < |kvs| ==> kvs[i].key != kvs[j].key
  }

  /** Why the server refuses a batch: no entries or an empty key, or a key named twice. */
  function Refusal(kvs: seq<KV>): (r: Option<Failure>)
    ensures r.None? <==> Acceptable(kvs)
  {
    if |kvs| == 0 || !NonEmptyKeys(kvs) then Some(IllegalArguments)
    else if !DistinctKeys(kvs) then Some(DuplicatedKey)
    else None
  }

  /** The value the batch gives a key (the first entry naming it). */
  function ValueIn(kvs: seq<KV>, k: string): string
    requires k in KeysOf(kvs)
  {
    if kvs[0].key == k then kvs[0].value
    else
      assert k in KeysOf(kvs[1..]) by {
        var i :| 0 <= i < |kvs| && kvs[i].key == k;
        assert kvs[1..][i - 1].key == k;
      }
      ValueIn(kvs[1..], k)
  }

  lemma {:induction false} ValueInAt(kvs: seq<KV>, i: nat)
    requires Acceptable(kvs) && i < |kvs|
    ensures kvs[i].key in KeysOf(kvs)
    ensures ValueIn(kvs, kvs[i].key) == kvs[i].value
  {
    if i > 0 {
      assert kvs[1..][i - 1] == kvs[i];
      ValueInAt(kvs[1..], i - 1);
    }
  }

  /** The key list after a batch: the new keys inserted in order. */
  function InsertAll(keys: seq<string>, kvs: seq<KV>): (r: seq<string>)
    ensures |keys| <= |r| <= |keys| + |kvs|
    decreases |kvs|
  {
    if kvs == [] then keys
    else
      InsertAll(Insert(keys, kvs[0].key), kvs[1..])
  }

  /** Inserting a batch's keys into an ascending list leaves it ascending. */
  lemma {:induction false} InsertAllSorted(keys: seq<string>, kvs: seq<KV>)
    requires Sorted(keys)
    ensures Sorted(InsertAll(keys, kvs))
    decreases |kvs|
  {
    if kvs != [] {
      InsertSorted(keys, kvs[0].key);
      InsertAllSorted(Insert(keys, kvs[0].key), kvs[1..]);
    }
  }

  lemma {:induction false} InsertAllMembers(keys: seq<string>, kvs: seq<KV>)
    ensures forall x :: x in InsertAll(keys, kvs) <==> x in keys || x in KeysOf(kvs)
    decreases |kvs|
  {
    if kvs != [] {
      InsertAllMembers(Insert(keys, kvs[0].key), kvs[1..]);
      InsertMembers(keys, kvs[0].key);
      KeysOfCons(kvs);
    }
  }

  lemma KeysOfCons(kvs: seq<KV>)
    requires kvs != []
    ensures KeysOf(kvs) == {kvs[0].key} + KeysOf(kvs[1..])
  {
    forall x | x in KeysOf(kvs) && x != kvs[0].key ensures x in KeysOf(kvs[1..]) {
      var i :| 0 <= i < |kvs| && kvs[i].key == x;
      assert kvs[1..][i - 1].key == x;
    }
    forall x | x in KeysOf(kvs[1..]) ensures x in KeysOf(kvs) {
      var i :| 0 <= i < |kvs[1..]| && kvs[1..][i].key == x;
      assert kvs[i + 1].key == x;
    }
  }

  /** The history of one key after a batch at transaction `tx`. */
  function Appended(revs: map<string, seq<Revision>>, kvs: seq<KV>, tx: nat, k: string): seq<Revision>
    requires k in revs.Keys + KeysOf(kvs)
  {
    if k in KeysOf(kvs) then (if k in revs then revs[k] else []) + [Revision(ValueIn(kvs, k), tx)]
    else revs[k]
  }

  /** The histories after a batch at transaction `tx`: one new revision per key named. */
  function AppendAll(revs: map<string, seq<Revision>>, kvs: seq<KV>, tx: nat): (r: map<string, seq<Revision>>)
  {
    map k | k in revs.Keys + KeysOf(kvs) :: Appended(revs, kvs, tx, k)
  }

  /** A batch leaves the history of every key it does not name as it was. */
  lemma AppendAllOther(revs: map<string, seq<Revision>>, kvs: seq<KV>, tx: nat, k: string)
    requires k in revs && k !in KeysOf(kvs)
    ensures k in AppendAll(revs, kvs, tx) && AppendAll(revs, kvs, tx)[k] == revs[k]
  {
  }

  /** The consistency the store keeps between its key list, histories and last transaction. */
  ghost predicate StoreValid(s: Snapshot)
  {
    && WellFormed(s.keys, s.revs)
    && (forall k :: k in s.revs ==> s.revs[k][|s.revs[k]| - 1].tx <= s.lastTx)
  }

  /** A committed batch keeps the store consistent. */
  lemma CommitValid(s: Snapshot, kvs: seq<KV>)
    requires StoreValid(s) && Acceptable(kvs)
    ensures StoreValid(Committed(s, kvs))
  {
    CommittedKeys(s, kvs);
    CommittedHistories(s, kvs);
  }

  /** After a batch the key list is still ascending and names exactly the keys with a history. */
  lemma CommittedKeys(s: Snapshot, kvs: seq<KV>)
    requires WellFormed(s.keys, s.revs)
    ensures var c := Committed(s, kvs);
      Sorted(c.keys) && forall k :: k in c.keys <==> k in c.revs
  {
    var c := Committed(s, kvs);
    InsertAllMembers(s.keys, kvs);
    InsertAllSorted(s.keys, kvs);
  }

  /** After a batch every history is still non-empty, ascending and no later than the last transaction. */
  lemma CommittedHistories(s: Snapshot, kvs: seq<KV>)
    requires StoreValid(s) && Acceptable(kvs)
    ensures var c := Committed(s, kvs);
      forall k :: k in c.revs ==> k != [] && |c.revs[k]| > 0 && TxAscending(c.revs[k]) && c.revs[k][|c.revs[k]| - 1].tx <= c.lastTx
  {
    var c := Committed(s, kvs);
    forall k | k in c.revs
      ensures k != [] && |c.revs[k]| > 0 && TxAscending(c.revs[k]) && c.revs[k][|c.revs[k]| - 1].tx <= c.lastTx
    {
      AppendedValid(s.revs, kvs, s.lastTx, k);
    }
  }

  /** Adding to a sorted set keeps the store consistent. */
  lemma ZAddedValid(s: Snapshot, name: string, key: string, atTx: nat)
    requires StoreValid(s)
    ensures StoreValid(ZAdded(s, name, key, atTx))
  {
  }

  lemma AppendedValid(revs: map<string, seq<Revision>>, kvs: seq<KV>, lastTx: nat, k: string)
    requires forall k :: k in revs ==> k != [] && |revs[k]| > 0 && TxAscending(revs[k]) && revs[k][|revs[k]| - 1].tx <= lastTx
    requires Acceptable(kvs)
    requires k in revs.Keys + KeysOf(kvs)
    ensures var h := Appended(revs, kvs, lastTx + 1, k);
      k != [] && |h| > 0 && TxAscending(h) && h[|h| - 1].tx <= lastTx + 1
  {
    if k in KeysOf(kvs) {
      var prior := if k in revs then revs[k] else [];
      var h := prior + [Revision(ValueIn(kvs, k), lastTx + 1)];
      assert h[..|h| - 1] == prior;
    }
  }

  /** The store's contents at one moment. */
  datatype Snapshot = Snapshot(keys: seq<string>, revs: map<string, seq<Revision>>, zsets: map<string, ZSet>, lastTx: nat)

  /** The store after the batch `kvs` was committed in the next transaction. */
  function Committed(s: Snapshot, kvs: seq<KV>): Snapshot
  {
    Snapshot(InsertAll(s.keys, kvs), AppendAll(s.revs, kvs, s.lastTx + 1), s.zsets, s.lastTx + 1)
  }

  /** The store after `key` was added, as of transaction `atTx`, to the set `name` in a transaction of its own. */
  function ZAdded(s: Snapshot, name: string, key: string, atTx: nat): Snapshot
  {
    s.(zsets := s.zsets[name := AddMember(SetIn(s.zsets, name), key, atTx)], lastTx := s.lastTx + 1)
  }

  /** A connection to the server; `db` is the server's whole state. */
  class Client {
    var db: Snapshot
    /** How many results the server returns when a request gives no limit. */
    const pageSize: nat

    ghost predicate Valid()
      reads this
    {
      StoreValid(db)
    }

    constructor (pageSize: nat)
      ensures Valid()
      ensures db == Snapshot([], map[], map[], 0)
      ensures this.pageSize == pageSize
    {
      db := Snapshot([], map[], map[], 0);
      this.pageSize := pageSize;
    }

    /** A request limit of 0 means the server's page size. */
    function Effective(limit: nat): nat
      reads this
    {
      if limit == 0 then pageSize else limit
    }

    /** Write every pair of the batch in one transaction, or nothing. */
    method SetAll(kvs: seq<KV>) returns (r: Result<nat, Failure>)
      requires Valid()
      modifies this
      ensures Valid()
      ensures r.Ok? ==> Acceptable(kvs) && r.value == old(db).lastTx + 1
      ensures r.Ok? ==> db == Committed(old(db), kvs)
      ensures !Acceptable(kvs) ==> r.Err?
      ensures r.Err? ==> unchanged(this)
    {
      var up: bool := *;
      var refused := Refusal(kvs);
      if !up {
        r := Err(Unavailable);
      } else if refused.Some? {
        r := Err(refused.value);
      } else {
        CommitValid(db, kvs);
        db := Committed(db, kvs);
        r := Ok(db.lastTx);
      }
    }

    /** Set: a batch of one. */
    method Set(key: string, value: string) returns (r: Result<nat, Failure>)
      requires Valid()
      modifies this
      ensures Valid()
      ensures r.Ok? ==> key != [] && r.value == old(db).lastTx + 1
      ensures r.Ok? ==> db == Committed(old(db), [KV(key, value)])
      ensures r.Err? ==> unchanged(this)
    {
      r := SetAll([KV(key, value)]);
    }

    /** Get: the current entry of a key. */
    method Get(key: string) returns (r: Result<Entry, Failure>)
      requires Valid()
      ensures r.Ok? ==> key in db.revs && r.value == Current(db.revs, key)
      ensures key !in db.revs ==> r.Err?
    {
      var up: bool := *;
      if !up {
        return Err(Unavailable);
      }
      if key !in db.revs {
        return Err(KeyNotFound);
      }
      r := Ok(Current(db.revs, key));
    }

    /** Scan: one page of the keys with `prefix` after `seek`, in ascending key order. */
    method Scan(prefix: string, seek: string, limit: nat) returns (r: Result<seq<Entry>, Failure>)
      requires Valid()
      ensures r.Ok? ==> r.value == Page(db.keys, db.revs, prefix, seek, Effective(limit))
    {
      var up: bool := *;
      if !up {
        return Err(Unavailable);
      }
      r := Ok(Page(db.keys, db.revs, prefix, seek, Effective(limit)));
    }

    /** History: the first page of a key's revisions, oldest first. */
    method History(key: string) returns (r: Result<seq<Entry>, Failure>)
      requires Valid()
      ensures r.Ok? ==> r.value == HistoryOf(db.revs, key, pageSize)
    {
      var up: bool := *;
      if !up {
        return Err(Unavailable);
      }
      r := Ok(HistoryOf(db.revs, key, pageSize));
    }

    /** The named sorted set, empty when it was never written. */
    function SetOf(name: string): ZSet
      reads this
    {
      SetIn(db.zsets, name)
    }

    /**
     * ZAddAt(set, 0, key, atTx): add `key`, as of transaction `atTx`, to a
     * sorted set, in a transaction of its own. Every caller uses score 0, so
     * the members stay in member order: shorter keys first, then byte order.
     */
    method ZAddAt(setName: string, key: string, atTx: nat) returns (r: Result<nat, Failure>)
      requires Valid()
      modifies this
      ensures Valid()
      ensures r.Ok? ==> key in db.revs && db.revs[key][0].tx <= atTx
      ensures r.Ok? ==> r.value == db.lastTx && db == ZAdded(old(db), setName, key, atTx)
      ensures r.Err? ==> unchanged(this)
    {
      var up: bool := *;
      if !up {
        return Err(Unavailable);
      }
      if key !in db.revs || db.revs[key][0].tx > atTx {
        return Err(KeyNotFound);
      }
      ZAddedValid(db, setName, key, atTx);
      db := ZAdded(db, setName, key, atTx);
      r := Ok(db.lastTx);
    }

    /** ZScan: the first page of a sorted set, each member with its value as of its transaction. */
    method ZScan(setName: string) returns (r: Result<seq<ZEntry>, Failure>)
      requires Valid()
      ensures r.Ok? ==> r.value == Members(SetOf(setName).members, SetOf(setName).atTx, db.revs, pageSize)
    {
      var up: bool := *;
      if !up {
        return Err(Unavailable);
      }
      r := Ok(Members(SetOf(setName).members, SetOf(setName).atTx, db.revs, pageSize));
    }
  }

  /** A named sorted set; one never written is empty. */
  function SetIn(zsets: map<string, ZSet>, name: string): ZSet
  {
    if name in zsets then zsets[name] else ZSet([], map[])
  }

  function AddMember(z: ZSet, key: string, atTx: nat): (r: ZSet)
    ensures r.atTx == z.atTx[key := atTx]
  {
    ZSet(InsertMember(z.members, key), z.atTx[key := atTx])
  }

  /**
   * A sorted-set member as ZScan reports it: its key, pinned at its
   * transaction, with the value the key had then (empty when it had none).
   */
  function MemberEntry(m: string, atTx: map<string, nat>, revs: map<string, seq<Revision>>): ZEntry
  {
    var tx := if m in atTx then atTx[m] else 0;
    var v := if m in revs then ValueAt(revs[m], tx) else None;
    ZEntry(m, if v.Some? then v.value else [], tx)
  }

  /** The first `limit` members, in set order, each as ZScan reports it. */
  function Members(members: seq<string>, atTx: map<string, nat>, revs: map<string, seq<Revision>>, limit: nat): (r: seq<ZEntry>)
    ensures |r| == Min(limit, |members|)
    ensures forall i :: 0 <= i < |r| ==> r[i] == MemberEntry(members[i], atTx, revs)
  {
    if members == [] || limit == 0 then []
    else [MemberEntry(members[0], atTx, revs)] + Members(members[1..], atTx, revs, limit - 1)
  }

  /** After a batch, every key it names reads back the value the batch gave it. */
  lemma {:induction false} CurrentAfterBatch(revs: map<string, seq<Revision>>, kvs: seq<KV>, tx: nat, i: nat)
    requires Acceptable(kvs) && i < |kvs|
    ensures kvs[i].key in AppendAll(revs, kvs, tx)
    ensures |AppendAll(revs, kvs, tx)[kvs[i].key]| > 0
    ensures Current(AppendAll(revs, kvs, tx), kvs[i].key) == Entry(kvs[i].key, kvs[i].value, tx, |AppendAll(revs, kvs, tx)[kvs[i].key]|)
  {
    ValueInAt(kvs, i);
  }

  lemma {:induction false} MatchingAllAfter(keys: seq<string>, prefix: string, x: string)
    requires forall k :: k in keys ==> After(x, k)
    ensures Matching(keys, prefix, x) == Matching(keys, prefix, [])
  {
    if keys != [] {
      MatchingAllAfter(keys[1..], prefix, x);
    }
  }

  /**
   * Resuming a scan after the last key of a page skips exactly the keys of
   * that page: the pagination cursor loses and repeats nothing.
   */
  lemma {:induction false} PageAdvance(keys: seq<string>, prefix: string, seek: string, n: nat)
    requires Sorted(keys) && forall k :: k in keys ==> k != []
    requires 0 < n <= |Matching(keys, prefix, seek)|
    ensures Matching(keys, prefix, Matching(keys, prefix, seek)[n - 1]) == Matching(keys, prefix, seek)[n..]
    decreases |keys|, 1
  {
    var m := Matching(keys, prefix, seek);
    var k0, t := keys[0], keys[1..];
    if HasPrefix(k0, prefix) && After(seek, k0) {
      assert m == [k0] + Matching(t, prefix, seek);
      if n == 1 {
        assert k0 in keys;
        PageAdvanceHead(keys, prefix, seek);
      } else {
        PageAdvanceKept(keys, prefix, seek, n);
      }
    } else {
      PageAdvanceSkipped(keys, prefix, seek, n);
    }
  }

  /** Resuming after a first key that matched skips just that key. */
  lemma PageAdvanceHead(keys: seq<string>, prefix: string, seek: string)
    requires Sorted(keys) && keys != [] && keys[0] != [] && HasPrefix(keys[0], prefix) && After(seek, keys[0])
    ensures Matching(keys, prefix, keys[0]) == Matching(keys, prefix, seek)[1..]
  {
    var k0, t := keys[0], keys[1..];
    assert Sorted(t);
    SortedHead(keys);
    LtIrreflexive(k0);
    assert Matching(keys, prefix, k0) == Matching(t, prefix, k0);
    MatchingAllAfter(t, prefix, k0);
    forall k | k in t ensures After(seek, k) {
      if seek != [] { LtTransitive(seek, k0, k); }
    }
    MatchingAllAfter(t, prefix, seek);
    assert Matching(keys, prefix, seek)[1..] == Matching(t, prefix, seek);
  }

  /** The n-th match, for n past a first key that matched, is the (n-1)-th match among the later keys. */
  lemma PageAdvanceKept(keys: seq<string>, prefix: string, seek: string, n: nat)
    requires Sorted(keys) && forall k :: k in keys ==> k != []
    requires keys != [] && HasPrefix(keys[0], prefix) && After(seek, keys[0])
    requires 1 < n <= |Matching(keys, prefix, seek)|
    ensures Matching(keys, prefix, Matching(keys, prefix, seek)[n - 1]) == Matching(keys, prefix, seek)[n..]
    decreases |keys|, 0
  {
    var t := keys[1..];
    var m, mt := Matching(keys, prefix, seek), Matching(t, prefix, seek);
    assert m == [keys[0]] + mt;
    var last := m[n - 1];
    assert last == mt[n - 2];
    MatchingMembers(t, prefix, seek);
    assert last in mt;
    assert Sorted(t);
    TailKeys(keys);
    PageAdvance(t, prefix, seek, n - 1);
    ResumeSkipsHead(keys, prefix, last);
    assert m[n..] == mt[n - 1..];
  }

  /** The matches, when the first key did not match, are those among the later keys. */
  lemma PageAdvanceSkipped(keys: seq<string>, prefix: string, seek: string, n: nat)
    requires Sorted(keys) && forall k :: k in keys ==> k != []
    requires keys != [] && !(HasPrefix(keys[0], prefix) && After(seek, keys[0]))
    requires 0 < n <= |Matching(keys, prefix, seek)|
    ensures Matching(keys, prefix, Matching(keys, prefix, seek)[n - 1]) == Matching(keys, prefix, seek)[n..]
    decreases |keys|, 0
  {
    var t := keys[1..];
    var mt := Matching(t, prefix, seek);
    assert Matching(keys, prefix, seek) == mt;
    var last := mt[n - 1];
    MatchingMembers(t, prefix, seek);
    assert last in mt;
    assert Sorted(t);
    TailKeys(keys);
    PageAdvance(t, prefix, seek, n);
    ResumeSkipsHead(keys, prefix, last);
  }

  lemma TailKeys(keys: seq<string>)
    requires keys != [] && forall k :: k in keys ==> k != []
    ensures forall k :: k in keys[1..] ==> k != []
  {
    forall k | k in keys[1..] ensures k != [] {
      var i :| 0 <= i < |keys[1..]| && keys[1..][i] == k;
      assert keys[i + 1] == k && keys[i + 1] in keys;
    }
  }

  /** Resuming after a later key never finds the first key of an ascending list. */
  lemma ResumeSkipsHead(keys: seq<string>, prefix: string, x: string)
    requires Sorted(keys) && keys != [] && x in keys[1..]
    ensures Matching(keys, prefix, x) == Matching(keys[1..], prefix, x)
  {
    SortedHead(keys);
    LtAsymmetric(keys[0], x);
  }
}
