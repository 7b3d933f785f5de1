# immudb-play in Dafny

A model of the core of immudb-play, a small Go service that turns PostgreSQL
pgaudit log lines into JSON documents and keeps them in immudb, the
tamper-evident key-value and SQL database. The model covers:

- **the three key-value document repositories**:
  - `JsonKVRepository` (`pkg/repository/immudb/jsonKV.go`) stores each document under a payload key, with index entries pointing to it.
  - `JsonRepository` (`pkg/repository/immudb/json.go`) and its older twin `ImmudbObjects` (`pkg/audittrail/audittrailKVjson.go`) explode a document into one key per top-level field. They pin every field key in a per-transaction sorted set and record each version under a versions key.
- **the SQL document repository** `JsonSQLRepository` (`pkg/repository/immudb/jsonSQL.go`): the table check at construction, the parameter map and `UPSERT` text of `WriteBytes`, the `SELECT` texts of `Read` and `History`, and the DDL of `SetupJsonSQLRepository`.
- **the ingestion loop** `AuditService.Run` (`pkg/service/service.go`): read a line, parse it, write it.
- **the two pgaudit line parsers** (`pkg/lineparser/pgaudit.go`, `pkg/pgaudit/pgaudit.go`), with their offset errors reproduced as written.

Layout, one module per file:

| module | file | role |
|---|---|---|
| `Wrappers` | `wrappers.dfy` | Go's `(value, error)` returns |
| `Errors` | `errors.dfy` | Go's `(value, error)` returns; `Fatal` stands for `log.Fatal` ending the process |
| `Text` | `text.dfy` | `strings.Index`, `TrimPrefix`, `Split`, `Join`, and the byte order of keys |
| `Decimal` | `decimal.dfy` | `%d`, `strconv.ParseUint` and `strconv.Atoi` |
| `Csv` | `csv.dfy` | a one-record reader for section 2 of RFC 4180, as `encoding/csv` reads a line |
| `Json` | `json.dfy` | what gjson reports of a document, and the member-by-member objects sjson rebuilds |
| `Keys` | `keys.dfy` | the key formats |
| `Immudb` | `immudb.dfy` | the database: a sorted key list with per-key revision histories and sorted sets, behind a `Client` class whose calls may fail |
| `Exploded` | `exploded.dfy` | the field-per-key layout shared by `json.go` and `audittrailKVjson.go`, parameterised by how a field value is stored (`Raw` with `SetRaw`, or `String()` with `Set`) |
| `JsonKV`, `JsonRepo`, `AuditTrail`, `JsonSQL` | `json_kv.dfy`, `json_repository.dfy`, `audit_objects.dfy`, `json_sql.dfy` | the repositories, as classes over a client |
| `AuditLine` | `audit_line.dfy` | what the parsers share: the log-line prefix, the `AUDIT: ` marker, the entry |
| `LineParser`, `PgAudit` | `line_parser.dfy`, `pgaudit.dfy` | the two parsers, each as written and corrected |
| `Service` | `service.dfy` | the ingestion loop over a line source, a parser and a store |

Loops in the source are methods with loop invariants, proved against
specification functions. The client and repository objects are classes, and
their calls change the fields the Go calls change. Parsing is pure and is
modelled as functions.

## Model

| member | source | states |
|---|---|---|
| `Keys.IndexKeysMatchPrefix` | pkg/repository/immudb/jsonKV.go:58-132 | an index key `coll.name.{value}` (primary or secondary) lies under the scan prefix `coll.name.{cond` whenever `cond` is a prefix of `value` |
| `Keys.PrefixMatchesOnlyValues` | pkg/repository/immudb/jsonKV.go:127-135 | conversely, a primary index key under the scan prefix has a value starting with `cond` (when `cond` holds no `}`): the prefix scan is a string-prefix match on the value |
| `Keys.FieldNameRoundTrip` | pkg/repository/immudb/json.go:83-153 | trimming `coll.{v}.` from a field key `coll.{v}.name` gives back the member name |
| `Keys.FieldKeyInjective` | pkg/repository/immudb/json.go:83 | distinct members of one object get distinct field keys |
| `Keys.PayloadKeyInjective` | pkg/repository/immudb/jsonKV.go:62 | distinct primary values get distinct payload keys |
| `Keys.IndexKeyNotPayloadKey` | pkg/repository/immudb/jsonKV.go:58-62 | a document's primary index key never collides with its payload key |
| `Keys.VersionSetExtendsIndexKey` | pkg/repository/immudb/json.go:100 | the per-transaction set name is the primary index key, a dot and the transaction text |
| `Keys.VersionsKeyNotUnderObject` | pkg/repository/immudb/json.go:83-112 | the versions key never lies under a document's field-key prefix |
| `Keys.IndexKeysNotUnderObject` | pkg/repository/immudb/json.go:60-83 | an index key of a field whose name does not start with `{` never lies under a document's field-key prefix |
| `Keys.IndexKeyNotVersionsKey` | pkg/repository/immudb/json.go:60-112 | a primary index key is never the versions key |
| `Json.Get` | pkg/repository/immudb/jsonKV.go:49-50 | a path lookup finds a value exactly when the path exists in the document |
| `Json.PutLookup` | pkg/repository/immudb/json.go:153 | after writing member `name` into an object, `name` holds the new fragment and every other member is unchanged |
| `Json.SetPath` | pkg/repository/immudb/json.go:153 | an empty path fails and nothing else does; on success the path reads back what was written and every other member is unchanged |
| `Text.Index` | pkg/lineparser/pgaudit.go:39 | the result is the first offset where the needle occurs, or -1 when it occurs nowhere |
| `Text.OccursInSuffix` | pkg/lineparser/pgaudit.go:50 | an occurrence in `s[k:]` at `i` is an occurrence in `s` at `k + i` |
| `Text.OccursInPrefix` | pkg/pgaudit/pgaudit.go:53 | an occurrence in `s[:k]` is an occurrence in `s` that ends by `k` |
| `Text.TrimPrefix` | pkg/repository/immudb/json.go:153 | with the prefix present, prefix plus result is the input; otherwise the input is returned unchanged |
| `Text.TrimPrefixInverts` | pkg/repository/immudb/json.go:153 | trimming a prefix that was prepended gives back the rest |
| `Text.Split` | pkg/repository/immudb/jsonSQL.go:188 | one part more than separators; no part holds the separator |
| `Text.SplitJoin` | pkg/repository/immudb/jsonSQL.go:188 | joining the parts of a split with the separator gives back the text |
| `Text.JoinSplit` | pkg/repository/immudb/jsonSQL.go:214 | splitting a join of separator-free parts gives back the parts |
| `Text.NoSeparatorSplit` | pkg/repository/immudb/jsonSQL.go:188-189 | a text without `=` splits into one part, an invalid definition |
| `Text.SplitConcat` | pkg/repository/immudb/jsonSQL.go:188-189 | a text `a=b` with `a` free of `=` splits into `a` followed by the parts of `b` |
| `Text.JoinAppend` | pkg/repository/immudb/jsonSQL.go:105-107 | joining one more part appends the separator and the part |
| `Text.LtTransitive` | pkg/repository/immudb/jsonKV.go:131-135 | the byte order of keys in which scans return entries is transitive |
| `Text.LtTotal` | pkg/repository/immudb/jsonKV.go:131-135 | two distinct keys are ordered one way or the other |
| `Text.LtAsymmetric` | pkg/repository/immudb/jsonKV.go:131-135 | the key order is asymmetric |
| `Text.LtIrreflexive` | pkg/repository/immudb/jsonKV.go:131-135 | no key precedes itself |
| `Text.SortedPairs` | pkg/repository/immudb/jsonKV.go:131-135 | in a sorted key list every earlier key precedes every later one |
| `Text.SortedHead` | pkg/repository/immudb/jsonKV.go:131-135 | the first key of a sorted list precedes all the others |
| `Text.InsertSorted` | pkg/repository/immudb/jsonKV.go:91 | inserting a written key keeps the database's key list sorted |
| `Text.InsertMembers` | pkg/repository/immudb/jsonKV.go:91 | after an insert the key list holds exactly the old keys and the new one |
| `Text.MemberLtTransitive` | pkg/repository/immudb/json.go:99-104 | the order of equal-score set members (length, then bytes) is transitive |
| `Text.MemberLtTotal` | pkg/repository/immudb/json.go:99-104 | two distinct set members are ordered one way or the other |
| `Text.MemberSortedHead` | pkg/repository/immudb/json.go:99-104 | the first member of a set in member order precedes all the others |
| `Text.MemberSortedDistinct` | pkg/repository/immudb/json.go:99-104 | a set in member order names no key twice |
| `Text.InsertMemberSorted` | pkg/repository/immudb/json.go:99-104 | adding a member keeps the set in member order |
| `Text.InsertMemberMembers` | pkg/repository/immudb/json.go:99-104 | after adding a member the set holds exactly the old members and the new one |
| `Decimal.Format` | pkg/repository/immudb/json.go:112 | `%d` of a transaction id is a non-empty digit string without a leading zero |
| `Decimal.FormatValue` | pkg/repository/immudb/json.go:112 | the digits `%d` writes have the value formatted |
| `Decimal.ParseUint` | pkg/repository/immudb/json.go:199 | `ParseUint(s, 10, 64)` succeeds exactly on non-empty digit strings whose value is below 2^64 |
| `Decimal.FormatParseUint` | pkg/repository/immudb/json.go:112-199 | a transaction id written with `%d` parses back to itself |
| `Decimal.FormatInjective` | pkg/repository/immudb/json.go:100 | distinct transaction ids give distinct texts, so distinct set names |
| `Decimal.Atoi` | pkg/lineparser/pgaudit.go:65-73 | a parsed id fits in 64 bits and its text starts with a digit or a sign |
| `Decimal.FormatAtoi` | pkg/lineparser/pgaudit.go:65-73 | the decimal text of any 64-bit integer parses back to it |
| `Decimal.DigitsOfValue` | pkg/lineparser/pgaudit.go:65-73 | the digit reader accepts exactly the texts made of digits only, and then gives their decimal value |
| `Csv.ReadRecord` | pkg/lineparser/pgaudit.go:55-59 | an empty input is an error (end of input); a record has at least one field |
| `Csv.ReadEncode` | pkg/lineparser/pgaudit.go:55-59 | a record written with every field quoted and inner quotes doubled reads back as the same fields |
| `Csv.QuotedEscape` | pkg/lineparser/pgaudit.go:55-59 | a quoted field reads back as its value, and the rest of the line is left |
| `Csv.FieldsOfPlain` | pkg/lineparser/pgaudit.go:55-59 | fields without commas or quotes, joined by commas, read back as the same fields |
| `Csv.FieldsPlainHead` | pkg/lineparser/pgaudit.go:55-59 | a plain first field followed by a comma is read as that field, then the fields of the rest |
| `Csv.FieldEnd` | pkg/lineparser/pgaudit.go:55-59 | a plain field ends at the first comma or the end of the line |
| `Immudb.Matching` | pkg/repository/immudb/jsonKV.go:131-135 | a scan never returns more keys than the database holds |
| `Immudb.MatchingMembers` | pkg/repository/immudb/jsonKV.go:131-135 | a scan returns exactly the keys that carry the prefix and come after the seek key |
| `Immudb.PageAdvance` | pkg/repository/immudb/jsonKV.go:130-154 | resuming a scan after the last key of a page yields exactly the keys past that page |
| `Immudb.PageStep` | pkg/repository/immudb/jsonKV.go:130-154 | a non-empty page holds the current entries of the next keys to read, and resuming from its last key leaves the rest |
| `Immudb.MatchingAllAfter` | pkg/repository/immudb/jsonKV.go:128 | seeking from a key before every stored key is seeking from the empty key |
| `Immudb.MatchingSorted` | pkg/repository/immudb/jsonKV.go:131-135 | a scan lists its matching keys in ascending order |
| `Immudb.Page` | pkg/repository/immudb/jsonKV.go:131-135 | a page holds the limit or all remaining matches, whichever is fewer |
| `Immudb.HistoryOf` | pkg/repository/immudb/jsonKV.go:167-169 | a history lists a key's revisions in order, revision numbers from 1, with value and transaction |
| `Immudb.HistoryOfLast` | pkg/repository/immudb/json.go:174-176 | when the whole history fits on a page, its last entry is the key's current entry |
| `Immudb.CurrentAfterBatch` | pkg/repository/immudb/jsonKV.go:91 | after `SetAll`, every written key's current entry holds the written value in the new transaction |
| `Immudb.CommitValid` | pkg/repository/immudb/jsonKV.go:91 | committing an acceptable batch keeps the database's invariants (sorted keys, ascending per-key transactions) |
| `Immudb.CommittedHistories` | pkg/repository/immudb/jsonKV.go:91 | after a batch every key's history is non-empty, ascending by transaction and no later than the last transaction |
| `Immudb.TxAscendingPairs` | pkg/repository/immudb/jsonKV.go:174-181 | a key's revisions are in strictly ascending transactions, any two of them and not only neighbours |
| `Immudb.CommittedKeys` | pkg/repository/immudb/jsonKV.go:91 | after a commit the key list is sorted and holds exactly the keys that have revisions |
| `Immudb.InsertAllSorted` | pkg/repository/immudb/jsonKV.go:91 | inserting a batch's keys keeps the key list sorted |
| `Immudb.InsertAllMembers` | pkg/repository/immudb/jsonKV.go:91 | after a batch the key list holds the old keys and the batch's keys, no others |
| `Immudb.ZAddedValid` | pkg/repository/immudb/json.go:99-104 | adding a member to a sorted set keeps the database's invariants |
| `Immudb.Refusal` | pkg/repository/immudb/jsonKV.go:91-94 | the database refuses a batch exactly when it is not acceptable (empty, an empty key, a repeated key) |
| `Immudb.Client.SetAll` | pkg/repository/immudb/jsonKV.go:91-94 | on success the batch was acceptable, its id is the next transaction and the store is the committed one; on failure nothing changed |
| `Immudb.Client.Set` | pkg/repository/immudb/json.go:111-116 | on success one entry is committed in the next transaction; on failure nothing changed |
| `Immudb.Client.Get` | pkg/repository/immudb/jsonKV.go:146-149 | on success the key's current entry; a missing key fails |
| `Immudb.Client.Scan` | pkg/repository/immudb/jsonKV.go:131-138 | on success the page of current entries after the seek key under the prefix |
| `Immudb.Client.History` | pkg/repository/immudb/jsonKV.go:167-172 | on success the key's revisions in order, one page |
| `Immudb.Client.ZAddAt` | pkg/repository/immudb/json.go:99-107 | on success the key is pinned in the set at the given transaction, in a transaction of its own |
| `Immudb.Client.ZScan` | pkg/repository/immudb/json.go:184-189 | on success the set's members in member order (shorter keys first, then byte order), each with its value as of its pinned transaction |
| `Immudb.Members` | pkg/repository/immudb/json.go:184-192 | a set scan returns the members in order, one page |
| `Exploded.BuildRequest` | pkg/repository/immudb/json.go:46-87 | the loop builds exactly the request `Request` specifies, error included |
| `Exploded.RequestFails` | pkg/repository/immudb/json.go:46-70 | the request fails exactly when there is no primary key or an indexed field is missing; a missing primary key gives "missing primary key in object" |
| `Exploded.RequestShape` | pkg/repository/immudb/json.go:57-87 | index entries first, primary then secondaries in order, each holding the primary value; then one field entry per member, in document order |
| `Exploded.StoreObject` | pkg/repository/immudb/json.go:45-121 | a request error writes nothing; a failed `SetAll` gives "could not store object: " with the client's error and writes nothing; on success the id is the next transaction and the store is the batch, then the pins, then the versions entry |
| `Exploded.CommitObject` | pkg/repository/immudb/json.go:89-116 | a failed `SetAll` gives "could not store object: " with the client's error and changes nothing; on success the id is the next transaction and the store is the batch followed by the version record; later failures end the process |
| `Exploded.PinFields` | pkg/repository/immudb/json.go:95-108 | the field keys, and only they, are added to the transaction's set, in order; a failure ends the process |
| `Exploded.RecordVersion` | pkg/repository/immudb/json.go:95-116 | the fields are pinned and the versions key is set to the transaction text |
| `Exploded.AddAllMembers` | pkg/repository/immudb/json.go:95-108 | after pinning, the set holds the old members and the field keys, each field key at the write transaction |
| `Exploded.AddAllSorted` | pkg/repository/immudb/json.go:99-107 | pinning keys keeps a set's members in member order: shorter keys first, then byte order |
| `Exploded.VersionRecorded` | pkg/repository/immudb/json.go:99-112 | after a store the versions key's current entry holds the write transaction's text, in transaction write + members + 1 |
| `Exploded.RecordKeepsHistory` | pkg/repository/immudb/json.go:95-116 | pinning fields and setting the versions key leave the history the batch gave every other key as it was |
| `Exploded.RestoreObjects` | pkg/repository/immudb/json.go:124-165 | on success, the rebuilt object of every index key matching the scan prefix, in key order; on failure "could not scan for objects, " or "could not scan for object, " with the client's error, or "could not restore object: " with the rebuild error of one of those keys |
| `Exploded.RestoreNext` | pkg/repository/immudb/json.go:129-161 | one page of the outer loop: an empty page ends the scan; otherwise its keys come next and their objects are returned; any error is one Restore may report for the remaining keys |
| `Exploded.RestorePage` | pkg/repository/immudb/json.go:142-161 | the inner loop returns the objects of the page's keys, or "could not scan for object, " with the client's error, or the rebuild error of one of its keys |
| `Exploded.RestoreOne` | pkg/repository/immudb/json.go:144-157 | one index entry's object is the catalogue object of its key; a key whose object does not rebuild gives "could not restore object: " with that error; otherwise only a failed scan fails |
| `Exploded.RebuildObject` | pkg/repository/immudb/json.go:151-157 | the loop computes `Rebuild`: the members written in entry order, names with the key prefix trimmed, stopping at the first refused `SetRaw`/`Set` |
| `Exploded.RebuildKeepsError` | pkg/repository/immudb/json.go:152-156 | once a leading entry fails to rebuild, the whole rebuild fails with that error |
| `Exploded.RebuildFails` | pkg/repository/immudb/json.go:151-157 | a rebuild fails exactly when some entry's trimmed field name is empty |
| `Exploded.RebuildLookup` | pkg/repository/immudb/json.go:151-157 | entries with non-empty distinct names rebuild into an object where each name reads back its entry's value and no other name is present |
| `Exploded.FieldsListed` | pkg/repository/immudb/json.go:144-153 | entries with distinct keys that are exactly a document's field keys, each holding its member's stored text, are that document's field entries |
| `Exploded.RebuildMembers` | pkg/repository/immudb/json.go:151-157 | a document's field entries rebuild exactly when no member name is empty, and then into an object holding exactly its members |
| `Exploded.RestoreFailureWithin` | pkg/repository/immudb/json.go:134-156 | an error Restore may report for some keys is one it may report for any run of keys holding them |
| `Exploded.CatalogOfAt` | pkg/repository/immudb/json.go:144-157 | every scanned index key has its rebuilt object in the catalogue |
| `Exploded.ObjectsOfIndex` | pkg/repository/immudb/json.go:160 | the i-th restored object is the object of the i-th index key |
| `Exploded.ObjectsOfAppend` | pkg/repository/immudb/json.go:160 | the objects of two runs of keys are those of the first, then those of the second |
| `Exploded.ReadVersion` | pkg/repository/immudb/json.go:184-197 | a version's object is rebuilt from the set named by the entry's text; a set that does not rebuild gives "could not restore object: " with that error; a failed scan ends the process |
| `Exploded.ParsedVersionsAt` | pkg/repository/immudb/json.go:182-209 | History succeeds exactly when every entry's text parses as a uint64; each version then has its object, the parsed id and the entry's revision |
| `Exploded.ParsedVersionsKeepsError` | pkg/repository/immudb/json.go:182-209 | once the leading entries fail, History's result is that failure |
| `Exploded.ParsedVersionsOk` | pkg/repository/immudb/json.go:182-209 | History succeeds exactly when every entry's object rebuilds and every entry's text parses as a uint64 |
| `Exploded.ParsedVersionsFailure` | pkg/repository/immudb/json.go:191-202 | History fails only by ending the process or with "could not restore object: " and the rebuild error of some entry's object |
| `Exploded.EntryVersionsAt` | pkg/audittrail/audittrailKVjson.go:182-204 | each version has its object, the entry's own transaction and its revision |
| `Exploded.EntryVersionsKeepsError` | pkg/audittrail/audittrailKVjson.go:182-204 | once the leading entries fail, RestoreHistory's result is that failure |
| `Exploded.EntryVersionsOk` | pkg/audittrail/audittrailKVjson.go:182-204 | RestoreHistory succeeds exactly when every entry's object rebuilds |
| `Exploded.EntryVersionsFailure` | pkg/audittrail/audittrailKVjson.go:191-197 | RestoreHistory fails only with "could not restore object: " and the rebuild error of some entry's object |
| `Exploded.PageSplit` | pkg/repository/immudb/json.go:129-159 | a page's keys are the first remaining matches, and the scan resumes right after them |
| `JsonRepo.JsonRepository.New` | pkg/repository/immudb/json.go:24-34 | no indexed keys ends the process; otherwise the repository holds the arguments |
| `JsonRepo.JsonRepository.StoreBytes` | pkg/repository/immudb/json.go:45-121 | raw field values, written with `SetRaw`; otherwise as `Exploded.StoreObject` |
| `JsonRepo.JsonRepository.Restore` | pkg/repository/immudb/json.go:124-165 | on success, the rebuilt objects of the matching index keys, in key order; on failure a wrapped scan error or the rebuild error of one of those keys, as `Exploded.RestoreObjects` |
| `JsonRepo.JsonRepository.History` | pkg/repository/immudb/json.go:173-212 | the result is the versions of the versions key as `ParsedVersions` states them (object, parsed id, revision; or the first rebuild error), or the process ends |
| `JsonRepo.HistoryReportsObjectTx` | pkg/repository/immudb/json.go:111-208 | after a store, History's newest version carries the id StoreBytes returned |
| `JsonRepo.ParsedSingle` | pkg/repository/immudb/json.go:199-207 | one entry becomes one version stamped with its parsed text |
| `AuditTrail.ImmudbObjects.StoreBytes` | pkg/audittrail/audittrailKVjson.go:37-113 | `String()` field values, written with `Set`; otherwise as `Exploded.StoreObject` |
| `AuditTrail.ImmudbObjects.Restore` | pkg/audittrail/audittrailKVjson.go:116-165 | on success, the rebuilt objects of the matching index keys, in key order; on failure a wrapped scan error or the rebuild error of one of those keys, as `Exploded.RestoreObjects` |
| `AuditTrail.ImmudbObjects.RestoreHistory` | pkg/audittrail/audittrailKVjson.go:173-207 | the result is the versions of the versions key as `EntryVersions` states them (object, the entry's own transaction and revision; or the first rebuild error), or the process ends |
| `AuditTrail.RestoreHistoryReportsWriteTx` | pkg/audittrail/audittrailKVjson.go:87-203 | after a store, RestoreHistory's newest version carries write + members + 2, never the id StoreBytes returned |
| `JsonKV.JsonKVRepository.New` | pkg/repository/immudb/jsonKV.go:21-31 | no indexed keys ends the process; otherwise the repository holds the arguments |
| `JsonKV.JsonKVRepository.WriteBytes` | pkg/repository/immudb/jsonKV.go:42-123 | a request error is returned and writes nothing; a failed `SetAll` gives "could not store object: " with the client's error and writes nothing; on success the id is the next transaction and the store is the old one with the batch committed |
| `JsonKV.RequestFails` | pkg/repository/immudb/jsonKV.go:43-72 | the request fails exactly when there is no primary key or an indexed field is missing, so `SetAll` is never reached |
| `JsonKV.RequestShape` | pkg/repository/immudb/jsonKV.go:55-80 | 1 + (number of indexed keys) entries: primary index, payload holding the bytes, secondaries in order; every entry but the payload points to the payload key |
| `JsonKV.JsonKVRepository.Read` | pkg/repository/immudb/jsonKV.go:126-157 | on success, the payloads the matching index keys lead to, in key order; on failure "could not scan for objects, " or "could not scan for object, " with the client's error |
| `JsonKV.JsonKVRepository.DerefPage` | pkg/repository/immudb/jsonKV.go:144-153 | the payloads one page of index entries leads to, in order, or "could not scan for object, " with the client's error |
| `JsonKV.ObjectsAt` | pkg/repository/immudb/jsonKV.go:144-153 | the i-th result is the document the i-th index key points to |
| `JsonKV.ObjectsAppend` | pkg/repository/immudb/jsonKV.go:152 | the documents of two runs of keys are those of the first, then those of the second |
| `JsonKV.JsonKVRepository.History` | pkg/repository/immudb/jsonKV.go:165-210 | one record per revision of the payload key, copying value, revision and transaction; a failed call ends the process |
| `JsonKV.IndexLeadsToDocument` | pkg/repository/immudb/jsonKV.go:57-77 | after a write, every index entry of the request leads to the written bytes |
| `JsonKV.ReadFindsWritten` | pkg/repository/immudb/jsonKV.go:58-156 | after a write, a read whose condition prefixes the primary value finds the primary index key, and reads the written bytes there |
| `JsonKV.HistoryOrdered` | pkg/repository/immudb/jsonKV.go:174-181 | history records are numbered from 1 in strictly ascending transactions |
| `JsonKV.WriteExtendsHistory` | pkg/repository/immudb/jsonKV.go:61-168 | a write adds the bytes as the newest revision of the payload key History reads |
| `RoundTrip.FieldAfterStore` | pkg/repository/immudb/json.go:81-92 | after a store every field key's current revision holds its member's stored text, written at the batch's transaction |
| `RoundTrip.KeysAfterStore` | pkg/repository/immudb/json.go:57-112 | after a store the key list is the old one plus the batch's keys and the versions key, still ascending when it was; the primary index key's current value is the primary-key text |
| `RoundTrip.SetAfterStore` | pkg/repository/immudb/json.go:95-108 | the set of the store's transaction, new before, holds exactly the document's field keys pinned at that transaction |
| `RoundTrip.VersionFields` | pkg/repository/immudb/json.go:184-193 | the entries ZScan reads from that set are the document's field entries |
| `RoundTrip.SetFields` | pkg/repository/immudb/json.go:184-193 | a set in member order that fits one page is read back as its members, each once, with their pinned values |
| `RoundTrip.VersionRoundTrip` | pkg/repository/immudb/json.go:95-197 | History's object for the store's transaction rebuilds exactly when no member name is empty, and then holds exactly the stored members |
| `RoundTrip.PrefixAfterStore` | pkg/repository/immudb/json.go:83-145 | with nothing under the document's prefix before, the keys under it after a store are exactly its field keys |
| `RoundTrip.BatchUnderObject` | pkg/repository/immudb/json.go:57-87 | the only keys of a request under the document's prefix are its field keys |
| `RoundTrip.FieldsInBatch` | pkg/repository/immudb/json.go:81-87 | every field key is one of the request's keys and lies under the document's prefix |
| `RoundTrip.CatalogFields` | pkg/repository/immudb/json.go:144-153 | the entries Restore scans under the document's prefix after a store are the document's field entries |
| `RoundTrip.RestoreRoundTrip` | pkg/repository/immudb/json.go:45-165 | after a store, Restore's object for the primary index key rebuilds exactly when no member name is empty, and then holds exactly the stored members |
| `RoundTrip.RestoreListsStored` | pkg/repository/immudb/json.go:60-133 | after a store, a Restore by the primary field with any prefix of its value lists the document's primary index key |
| `JsonSQL.SqlClient.NewTx` | pkg/repository/immudb/jsonSQL.go:29-32 | the request is logged; the answer is a transaction or a failure |
| `JsonSQL.SqlClient.SQLExec` | pkg/repository/immudb/jsonSQL.go:110-115 | the statement and its parameters are logged; the answer is a transaction id or a failure |
| `JsonSQL.SqlClient.SQLQuery` | pkg/repository/immudb/jsonSQL.go:129-132 | the query is logged; the answer is rows of the selected width, or a failure |
| `JsonSQL.SqlClient.Commit` | pkg/repository/immudb/jsonSQL.go:53-56 | the commit is logged; the answer is done or a failure |
| `JsonSQL.JsonSQLRepository.New` | pkg/repository/immudb/jsonSQL.go:27-62 | begin, table query, column query and commit are sent in order up to the first failure or a table count other than one; it succeeds exactly when all four succeed with one table; each failure gives its own text ("could not create transaction for sql repository, ", "coudl not query tables, ", the bare column-query error, "could not initialize sql repository, "), a table count other than one "collection does not exist"; on success the columns are the (name, type) rows in order |
| `JsonSQL.ColumnsOf` | pkg/repository/immudb/jsonSQL.go:48-51 | one column per row |
| `JsonSQL.OpenRequests` | pkg/repository/immudb/jsonSQL.go:29-53 | four requests: begin first, commit last |
| `JsonSQL.JsonSQLRepository.WriteBytes` | pkg/repository/immudb/jsonSQL.go:73-116 | a parameter error sends nothing; otherwise one `UPSERT` over the data columns with the parameter map, and the id or "could not insert into collection, " and the error |
| `JsonSQL.DataNames` | pkg/repository/immudb/jsonSQL.go:79-83 | the columns other than `__value__`, in order |
| `JsonSQL.WriteParamsOutcome` | pkg/repository/immudb/jsonSQL.go:77-99 | parameters build exactly when every column is present with a supported type; the map then has `__value__` (the bytes) and the data columns as keys; otherwise the error names the first bad column |
| `JsonSQL.WriteParamsBinds` | pkg/repository/immudb/jsonSQL.go:89-95 | each data column is bound to the field converted by its type (Int, String or Time) |
| `JsonSQL.WriteParamsKeepsError` | pkg/repository/immudb/jsonSQL.go:85-97 | the first error returns at once: later columns do not change it |
| `JsonSQL.UpsertNamesColumns` | pkg/repository/immudb/jsonSQL.go:101-108 | the statement lists the quoted column names, then `__value__`, and one `@name` placeholder per column, then `@__value__` |
| `JsonSQL.JoinWrapped` | pkg/repository/immudb/jsonSQL.go:104-107 | joining with `","` between quotes is quoting each name and joining with a comma |
| `JsonSQL.JsonSQLRepository.Read` | pkg/repository/immudb/jsonSQL.go:118-140 | one query, the `WHERE` form when a query is given; the result is the first value of each row, or the failure's message |
| `JsonSQL.JsonSQLRepository.History` | pkg/repository/immudb/jsonSQL.go:142-169 | one query, the caller's suffix or ` SINCE TX 1 `; the result is the first value of each row, or the failure's message |
| `JsonSQL.FirstValues` | pkg/repository/immudb/jsonSQL.go:134-137 | one value per row |
| `JsonSQL.ReadSqlInjective` | pkg/repository/immudb/jsonSQL.go:120-127 | distinct queries give distinct statements |
| `JsonSQL.HistorySqlAppends` | pkg/repository/immudb/jsonSQL.go:142-152 | History with ` WHERE q` sends Read's statement for q; History with no query sends ` SINCE TX 1 ` |
| `JsonSQL.Definitions` | pkg/repository/immudb/jsonSQL.go:187-198 | one (name, type) pair per column definition |
| `JsonSQL.DefinitionsOutcome` | pkg/repository/immudb/jsonSQL.go:187-198 | definitions parse exactly when each holds one `=`; each pair joined by `=` is its definition; otherwise the error names the first definition without exactly one `=` |
| `JsonSQL.DefinitionsKeepError` | pkg/repository/immudb/jsonSQL.go:189-191 | the first invalid definition returns at once |
| `JsonSQL.Names` | pkg/repository/immudb/jsonSQL.go:197 | the indexed names are the definitions' names, in order |
| `JsonSQL.TableStep` | pkg/repository/immudb/jsonSQL.go:187-198 | one loop step appends `name type,` to the statement and the name to the indexes, or stops at an invalid definition |
| `JsonSQL.TableStatement` | pkg/repository/immudb/jsonSQL.go:182-201 | the `CREATE TABLE` text and the index names, or "invalid index definition, " and the definition |
| `JsonSQL.SetupRequests` | pkg/repository/immudb/jsonSQL.go:177-223 | four requests: begin first, commit last |
| `JsonSQL.Setup` | pkg/repository/immudb/jsonSQL.go:171-229 | an empty collection is refused before any request; an invalid definition is reported after the transaction is opened; otherwise begin, table, index and commit are sent in order up to the first failure; the process ends exactly when the begin or a statement fails; the commit's failure is returned and its success is the call's |
| `JsonSQL.CreateCollection` | pkg/repository/immudb/jsonSQL.go:204-228 | create table, create index, commit are sent in order up to the first failure; the process ends exactly when a statement fails; the commit's failure is returned and its success is the call's |
| `JsonSQL.StoppedAfterBegin` | pkg/repository/immudb/jsonSQL.go:177-181 | a begin that succeeds followed by requests that stop at their first failure is itself such a run |
| `AuditLine.SpaceAfterPrefix` | pkg/lineparser/pgaudit.go:39-42 | the first space at or after byte 26, or -1 when there is none |
| `AuditLine.Prefix` | pkg/lineparser/pgaudit.go:35-47 | too short, no space after byte 26, and an unparsable timestamp are the three errors, each with its text; otherwise the timestamp of `line[:26+pos]` and its end |
| `AuditLine.PrefixOf` | pkg/lineparser/pgaudit.go:39-44 | after a timestamp text with no space past byte 26, the prefix ends where the text does |
| `AuditLine.MarkerAfter` | pkg/lineparser/pgaudit.go:50 | the marker is first found right after a text holding no `A` |
| `AuditLine.FramedLine` | pkg/lineparser/pgaudit.go:35-55 | on a framed line the prefix is the timestamp, the marker is found right after the text up to it, and the record follows |
| `AuditLine.NoMarker` | pkg/pgaudit/pgaudit.go:53-56 | a text without `A` holds no marker |
| `AuditLine.CsvFields` | pkg/lineparser/pgaudit.go:75-87 | nine fields per entry, in the order the parser maps them |
| `AuditLine.CsvFieldsPlain` | pkg/lineparser/pgaudit.go:65-73 | an entry with plain texts has plain fields; the ids' decimal texts never need quoting |
| `AuditLine.FormatIntPlain` | pkg/lineparser/pgaudit.go:65-73 | a decimal integer text holds no comma and no quote |
| `AuditLine.SampleFramed` | pkg/lineparser/pgaudit.go:34 | the prefix PostgreSQL writes with `%m [%p] ` is framed, has no comma or quote, and is longer than the text up to the record |
| `AuditLine.SampleTail` | pkg/lineparser/pgaudit.go:55 | what of the sample line lies between the misplaced offset and the record |
| `LineParser.Record` | pkg/lineparser/pgaudit.go:55-87 | the entry carries the parse time and the log timestamp |
| `LineParser.RecordFields` | pkg/lineparser/pgaudit.go:56-87 | a record parses exactly when it has nine or more fields whose second and third are integers; fields 0 to 8 map in order, extra fields are ignored |
| `LineParser.RecordRoundTrip` | pkg/lineparser/pgaudit.go:55-87 | writing an entry's fields as a record and parsing it gives the entry back |
| `LineParser.Parse` | pkg/lineparser/pgaudit.go:33-95 | as written: the prefix errors; "not a pgaudit line" when the marker is absent after the prefix; on success the timestamp is the parsed prefix and the parse time is `now` |
| `LineParser.ParseFixed` | pkg/lineparser/pgaudit.go:33-95 | corrected: the same errors, with the record read from right after the marker |
| `LineParser.Locate` | pkg/lineparser/pgaudit.go:35-53 | the prefix errors, or the parsed timestamp, the end of the prefix and the marker's offset after it, where the marker occurs; "not a pgaudit line" when it is absent |
| `LineParser.LocatedAt` | pkg/lineparser/pgaudit.go:39-53 | a parsed prefix followed by the marker at a given offset locates there |
| `LineParser.FramedLocated` | pkg/lineparser/pgaudit.go:35-55 | on a framed line the marker is found right after the prefix, and what follows it is the record text |
| `LineParser.ParsedAt` | pkg/lineparser/pgaudit.go:50-59 | as written reads the record from (marker offset after the prefix) + 7 of the whole line |
| `LineParser.ParsedFixedAt` | pkg/lineparser/pgaudit.go:50-59 | corrected reads the record from right after the marker |
| `LineParser.FixedReadsFrom` | pkg/lineparser/pgaudit.go:33-59 | on a framed line corrected parsing reads exactly the text after the marker |
| `LineParser.FirstFieldOnly` | pkg/lineparser/pgaudit.go:75-78 | records differing in a plain first field give entries differing only in audit type |
| `LineParser.OffsetMisreadsRecord` | pkg/lineparser/pgaudit.go:50-55 | on every framed line with a valid record, as written reports an audit type that starts inside the timestamp, while corrected returns the entry |
| `LineParser.MisreadEntry` | pkg/lineparser/pgaudit.go:50-78 | on a framed line, as written returns the entry with the audit type preceded by the tail of the timestamp, the prefix and the marker |
| `LineParser.ShiftedRecord` | pkg/lineparser/pgaudit.go:55-78 | a record whose first field is replaced by a plain text parses to the entry with that audit type |
| `LineParser.SampleMisread` | pkg/lineparser/pgaudit.go:50-55 | on the sample prefix, as written reports `789 GMT [294] LOG:  AUDIT: ` before the audit type |
| `LineParser.ParseFixedRoundTrip` | pkg/lineparser/pgaudit.go:33-87 | a framed line carrying an entry's record parses, corrected, to that entry |
| `PgAudit.Record` | pkg/pgaudit/pgaudit.go:58-78 | a record parses exactly when it has nine or more fields; fields 0 and 3 to 8 map in order and both statement ids stay 0; "invalid csv line" or "invalid csv fields length: n" otherwise |
| `PgAudit.Parse` | pkg/pgaudit/pgaudit.go:37-79 | as written: the prefix errors; "not a pgaudit line" when the timestamp text holds no marker; on success the ids are 0 |
| `PgAudit.ParseFixed` | pkg/pgaudit/pgaudit.go:37-79 | corrected: the marker is looked for after the prefix; the same errors and zero ids |
| `PgAudit.MarkerWithinMinPrefix` | pkg/pgaudit/pgaudit.go:43-58 | as written accepts a line only when the marker lies wholly within its first 26 bytes |
| `PgAudit.TimestampHidesMarker` | pkg/pgaudit/pgaudit.go:48-56 | on a framed line whose timestamp holds no `A`, as written answers "not a pgaudit line" while corrected reads the record |
| `PgAudit.SampleRejected` | pkg/pgaudit/pgaudit.go:53-56 | the sample line is never a pgaudit line to the parser as written |
| `PgAudit.ParseFixedRoundTrip` | pkg/pgaudit/pgaudit.go:58-78 | corrected parsing of a framed line gives the entry with both ids 0 |
| `Service.LineSource.ReadLine` | pkg/service/service.go:47 | the next line, or how the source ends once it is empty |
| `Service.Store.WriteBytes` | pkg/service/service.go:62 | every call is recorded with its payload and answer |
| `Service.AuditService.Run` | pkg/service/service.go:45-69 | the lines read are a prefix of the source; each accepted line's payload is written once, in order; only the last write may fail, and then Run stops at once: the accepted line it came from is the last line read, and its error is returned wrapped; otherwise every line was read and the result is nil at EOF or the read error unchanged |
| `Service.ReadStep` | pkg/service/service.go:47-62 | one more line read adds its payload if, and only if, the parser accepts it |
| `Service.OutputsAppend` | pkg/service/service.go:56-62 | the payloads of two runs of lines are those of the first, then those of the second |
| `Service.OutputsCount` | pkg/service/service.go:56-62 | as many writes as lines the parser accepts |
| `Service.OutputsAllParsed` | pkg/service/service.go:56-62 | when every line parses, the writes are the parser's outputs line by line |
| `Service.OutputsNoneParsed` | pkg/service/service.go:56-60 | when no line parses, nothing is written |

## Left out

- Network calls to immudb are a model of the database, not the client library. Every call may fail; multi-key atomicity of `SetAll` is assumed. Pagination of `History` and `ZScan` is one page of the server's default size.
- `Immudb.Client.History`: a key never written gives an empty history, where the server reports the key as not found and the callers end the process; the error outcome every call keeps still covers that case.
- `log.Fatal` and `log.Panic` are the `Fatal` error outcome; the process exit itself is not modelled.
- Logging (`log.Printf`, logrus) and the debug `fmt.Printf` at `pkg/lineparser/pgaudit.go:49` are left out: they are output only.
- gjson and sjson are abstracted as `Json.Document` and member lists. Path syntax, JSON text parsing and rendering are not modelled; `WriteBytes` receives both the bytes and the document gjson reads from them.
- `json.Marshal` is left out. The parsers return the `AuditLine.Entry` they would marshal, so `Write`, `Store` and "could not marshal pg audit entry" are not modelled.
- `time.Parse` is the parameter `parseTime`, and `time.Now().UTC()` is the parameter `now`.
- In `Service`, the parser is a function parameter and the repository a `Store` whose answers are not determined. A line source is finite: its lines, then EOF or a read error. An endless source is not modelled.
- `encoding/csv` is a one-record reader of section 2 of RFC 4180. It does not cover line breaks inside quoted fields, the reader's error texts, or `LazyQuotes`/`TrimLeadingSpace`, which the source never sets.
- `LineParser.Record`: errors are stated without the wrapped `csv` or `strconv` error text ("invalid csv line", "could not parse statementID", "could not parse substatementID"). `PgAudit.Record` does the same for "invalid csv line".
- `JsonSQL.SqlClient.SQLQuery`: result rows are sequences of strings. Typed SQL values (`GetS`, `GetBs`) are not modelled.
- Errors the immudb client returns are abstract: `Immudb.Describe` gives the text a wrapped `%w` error adds, and contracts state only the context the source prepends.
- sjson path syntax (dots, wildcards, escapes) is not modelled: a path is one member name, and only the empty path is refused.
- `RoundTrip.RestoreRoundTrip`: stated only when nothing was stored under the document's prefix before, because field keys of earlier stores are never deleted and Restore merges them in; only when no indexed field name starts with `{`; and only when the document's members fit in one `Scan` page.
- `RoundTrip.VersionRoundTrip`: stated only when the set of the store's transaction is new and its members fit in one `ZScan` page.
- The composite `field1+field2` primary key mentioned in the CLI help is not modelled; the code shown does not implement it.
- The command-line glue (`cmd/`, `main.go`), the demo drivers in `pkg/audittrail`, `pkg/source` and `pkg/lineparser/wrap.go` are not part of this model.

## Findings

| source | as written | input that shows it | evidently intended | confidence | as-written member | corrected member |
|---|---|---|---|---|---|---|
| pkg/audittrail/audittrailKVjson.go:199-203 | each version is stamped with `e.Tx`, the transaction of the versions-key entry, written after the batch and after one `ZAddAt` per field | an object with m members stored when the last transaction is t: `StoreBytes` returns t+1, `RestoreHistory` reports t+m+2 | stamp the version with the write transaction, parsed from the entry's value as `json.go` does | not executed | `AuditTrail.RestoreHistoryReportsWriteTx` | `JsonRepo.HistoryReportsObjectTx` |
| pkg/lineparser/pgaudit.go:50-55 | the marker's offset within `line[26+pos:]` is used as an offset into `line` | `2022-01-05 12:34:56.789 GMT [294] LOG:  AUDIT: SESSION,1,1,READ,SELECT,,,select 1,<not logged>` parses with audit type `789 GMT [294] LOG:  AUDIT: SESSION` | read the record from `line[26+pos+pos2+7:]` | not executed | `LineParser.OffsetMisreadsRecord` | `LineParser.ParseFixedRoundTrip` |
| pkg/pgaudit/pgaudit.go:53 | the marker is looked for in `line[:26+pos]`, the timestamp text | the same line is rejected as "not a pgaudit line"; any line is accepted only with the marker inside its first 26 bytes | look for the marker after the timestamp and read the record from after it | not executed | `PgAudit.TimestampHidesMarker` | `PgAudit.ParseFixedRoundTrip` |
